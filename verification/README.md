# A verified model of the VBCI region memory manager and its type checks

This project models two parts of the Verona compiler and bytecode interpreter and proves their central
properties.

*The memory manager of the interpreter.* Heap regions form a forest. Every region carries `stack_rc`, an
edge-triggered count: it holds the references from the stack side (registers, fields of stack objects, fields
of objects in frame-local regions) plus one for every child region whose own count is positive. Objects carry
exact reference counts, a region other than its parent's may be entered through one field only, and nothing may
refer to something that dies earlier. The project models the operations that have to keep all of this right:
the count cascades, dragging a frame-local object graph into another region, the write barrier, merging
regions, freezing frame-local graphs, collecting, and the chunked stack with its header walker.

*The type checks.* One proof engine (a sequent calculus) is behind both subtype relations of the compiler. The
project proves what the engine decides, instantiates it for the intermediate language and for structural shapes,
and relates compile-time subtyping to the interpreter's run-time check, to slot layouts and to the interned type
table. Two self-contained algorithms complete it: the liveness fixpoint of type inference and the variable-length
integer coding of the bytecode.

## Layout

| file | what it models |
|---|---|
| `sequent.dfy`, `sequent_models.dfy` | the proof engine, and its meaning in models |
| `ir_types.dfy`, `runtime_types.dfy`, `layout.dfy`, `ir_runtime.dfy`, `interning.dfy` | the two subtype checks, layouts, and the type table between them |
| `shapes.dfy`, `shapes_greatest.dfy`, `shapes_loophole.dfy`, `shapes_harmless.dfy`, `shapes_engine.dfy` | structural subtyping of shapes |
| `regions.dfy`, `graph.dfy`, `heap.dfy`, `region_runs.dfy` | the region forest, the object graph with its invariants, the counting operations, and all runs of them |
| `drag.dfy`, `drag_commit.dfy`, `drag_exact.dfy` | dragging |
| `barrier.dfy`, `exchange.dfy`, `exchange_entries.dfy`, `exchange_frame.dfy`, `exchange_register.dfy` | the write barrier into heap storage and its entries, into frame storage, and into a variable of an older frame |
| `merge.dfy` | merging two regions |
| `failures.dfy` | a heap in order, and the stores and merges that break an invariant of it |
| `union_find.dfy`, `freeze.dfy`, `freeze_steps.dfy`, `freeze_collapse.dfy`, `freeze_order.dfy`, `freeze_local.dfy` | union-find by address, and freezing a frame-local graph |
| `stack.dfy`, `collect.dfy`, `liveness.dfy`, `leb128.dfy` | the stack, the collector, liveness, variable-length integers |
| `collections.dfy` | options and sizes of sets |

Code that updates state is modelled by classes, arrays and loops: `Heap` (regions and headers), `Memory`
(union-find), `Stack`, `Collector`, `Compilation` (the type table), and the loops of the engine, the traversals and
the fixpoint. Code that computes is modelled by functions. Addresses of regions and headers are numbers and the
memory behind them is the maps of `Heap` and `Memory`. Ghost state records what the program does not store: what has
been reported to each region, the ranking of the forest, the allocation history, the log of the collector.

`Consistent` in `barrier.dfy` is the invariant that the interpreter's own debug check (vbci/thread.cc:651-743) writes
down, with what it relies on: counts exact, `stack_rc` equal to stack-side references plus active children, the parent
relation a forest, a crossing reference starts in the parent and is the only one, every child is entered, what
a cown refers to lives in a region that a cown owns, and no reference outlives its target.

## Where the code does not meet a plausible property

Each of these is proved, with the exact condition or with an input that shows it.

* A swap of two values of the same sub-region (vbci/writebarrier.h:161-163) leaves that region without a parent while
  it is still entered from its former parent. `Exchanges.Exchange` keeps the invariant if and only if this case and
  the next one do not arise. `Failures.SwapLosesParent` gives a heap in order and such a swap.
* A drag that brings references into a region which is already a child of the destination (vbci/drag.cc:81-82) does
  not retract their reports. `DragExact.DragAllocation` states the excess exactly. `WriteBarrier.CleanDrag`, a
  condition on the heap before the store, says when there is none: what has to move refers to no child of the
  destination, but for one reference into the region whose entry is overwritten. `Failures.DragEntersTwice`
  gives a store that does not meet it.
* The entry recorded for a region, on which freezing decides whether the region loses its owner (vbci/freeze.cc:305-308),
  is not always what the parent refers to: a drag that takes over the overwritten reference leaves the entry as it was,
  although the reference it brings may be to another object. `ExchangeEntries.EntriesAfter` says exactly when entries
  stay exact, and `Failures.DragLeavesEntry` gives a store after which they are not.
* A store whose drag is refused may have retracted the report of the overwritten region's reference by then
  (vbci/drag.cc:73-77), and leaves that region's count one too low. This depends on the order in which the traversal
  meets the headers (`Drags.Route`): it happens if and only if something in the region is met before what ends the
  traversal (`Drags.MetInTime`, a condition on the heap before the store), and a refused store keeps the invariant if
  and only if it does not happen (`Exchanges.Exchange`). `Failures.RefusedDragRetracts` gives an input.
* A store to a stack or frame-local slot plans to take away the parent of the overwritten value's region
  (vbci/writebarrier.h:62-64), although the slot never gave it one. `FrameExchanges.ExchangeOnFrame` keeps the invariant
  if and only if the overwritten value is not in another region. If it is, and a dragged value refers there too, the
  region keeps its parent but its count is one too low; else, if the region has no parent, the assertion in
  `clear_parent` fails; else it loses its parent although that still refers to it. `Failures.FrameDragMiscounts`,
  `Failures.FrameStoreFails` and `Failures.FrameStoreOrphans` give inputs for the three.
* Of two heap regions, `merge` never empties the owned one (vbci/merge.cc:177-186), so a root is emptied into its own
  child or grandchild. `Merging.MergeRegions` keeps every invariant if and only if the source is not above the
  destination. A child is left with a parent that has been freed; further down, the loop over the sub-regions hangs a
  region below its own descendant. Either way no ranking and no reports fit the regions.
  `Failures.MergeFreesParent` and `Failures.MergeClosesCircle` give inputs.
* Freezing relies on the bottom of a component under construction being its representative (vbci/freeze.cc:136).
  `FreezeLocals.FreezeLocal` succeeds if and only if, at every back edge of the search, the bottom of the component it
  enters has the highest address there; `FreezeOrder.Whole` states this, and the order in which headers are met, as a
  function of what the search starts from. It follows that the search cannot fail if no header is met before one of
  its own component that has a higher address. That the header met first has the highest address is not enough:
  `FreezeLocals.OldestHighestIsNotEnough` gives three headers on which it fails.
* The self type stands for the left-hand side of a check, so structural subtyping of shapes is not transitive in programs
  that use it (`ShapesGreatest.SelfIsNotTransitive`). Without it, it is.
* The contradiction axioms for shapes (vc/subtype.h:149-202) can make the structural check accept a pair that the
  structural rules do not relate. `ShapesLoophole.AcceptsTooMuch` gives a program. Without these axioms the check is
  exact on every program, and with them it is exact on programs whose shapes do not conflict where a check can meet
  them. That is sufficient and not necessary: `ShapesHarmless.ExactAllTheSame` gives a program with such a conflict on
  which the check is exact.
* The engine is complete only for tables whose contradictions are inherited downward; the table of the intermediate
  language is not one of them (`IRTypes.IRAxiomsNotLawful`). This does no harm there, because its types have unions only.

Where comments and code disagree the code is followed:

* virc/analysis/sequent.h:40-42 asks for symmetric contradiction axioms; the check consults both sides, so it is
  symmetric for any axioms (`Sequents.ContradictsSymmetric`).
* vbci/collect.cc:132-133 says that the second phase may enqueue new items; freeing memory enqueues nothing, and
  one round is all that `Collection.Collector.Drain` needs.

## Model

| member | source | states |
|---|---|---|
| Sequents.Reduce | virc/analysis/sequent.h:152-312 | the two loops, with their splits on copies of the state, end and answer what the search tree answers |
| Sequents.ReduceLeft | virc/analysis/sequent.h:218-310 | the same for the second loop, entered once nothing is pending on the right |
| Sequents.SplitAllRight | virc/analysis/sequent.h:321-326 | all splits on the right succeed, each on the state as it was |
| Sequents.SplitAllLeft | virc/analysis/sequent.h:314-319 | all splits on the left succeed, each on the state as it was |
| Sequents.Clashes | virc/analysis/sequent.h:287-295 | the scan finds a contradiction if and only if some assumed atom contradicts the new one |
| Sequents.ContradictsSymmetric | virc/analysis/sequent.h:328-358 | contradiction is symmetric whatever axioms are registered; which atoms contradict is `SequentModels.EmptyIntersection` |
| SequentModels.EmptyIntersection | virc/analysis/sequent.h:328-358 | for any axioms: the intersection of two atoms is empty exactly if every registered contradiction axiom of the two agrees or, where none is registered, neither atom entails the other, whatever their tokens |
| SequentModels.Sound | virc/analysis/sequent.h:152-312 | a sequent that the search accepts holds in every model of the axioms, also for axioms that read the context |
| SequentModels.Countermodel | virc/analysis/sequent.h:152-312 | a rejected sequent has a model of its left side in which nothing on the right holds |
| SequentModels.ClosureIsModel | virc/analysis/sequent.h:298-310 | everything above consistent atoms is a model of the axioms and contradictions |
| SequentModels.EntailsSound | virc/analysis/sequent.h:119-133 | an accepted query holds in every model of the caller's implications |
| SequentModels.EntailsComplete | virc/analysis/sequent.h:119-133 | under lawful axioms a query that holds in every model is accepted |
| SequentModels.DecidesIffLawful | virc/analysis/sequent.h:119-133 | the search decides every query exactly when the axioms are a preorder whose contradictions are irreflexive and inherited downward |
| SequentModels.StateDecided | virc/analysis/sequent.h:152-312 | a state with consistent atoms is accepted exactly when it is valid |
| SequentModels.OrderIrrelevant | virc/analysis/sequent.h:152-312 | neither order nor repetition of pending formulas changes the answer |
| SequentModels.Reflexivity | virc/analysis/sequent.h:119-133 | every formula with one-part wrappers is below itself |
| SequentModels.EmptyWrapperIsNotReflexive | virc/analysis/sequent.h:159-165 | a wrapper without parts is not below itself |
| SequentModels.Cut | virc/analysis/sequent.h:119-133 | an intermediate formula can be removed |
| SequentModels.InvariantIsCongruence | virc/analysis/sequent.h:140-143 | `invariant` is an equivalence whose classes answer every query alike |
| SequentModels.UnionQuery | virc/analysis/sequent.h:152-312 | between unions: every alternative on the left is proved below one on the right, for any axioms |
| IRTypes.EngineComputesIRSubtype | virc/analysis/ir_subtype.h:57-117 | the engine with the table of the intermediate language computes the recursive relation |
| IRTypes.IRReflexive | virc/analysis/ir_subtype.h:27-117 | reflexivity across unions, tuples and invariant wrappers |
| IRTypes.IRTransitive | virc/analysis/ir_subtype.h:27-117 | transitivity across unions, tuples and invariant wrappers |
| IRTypes.IntoUnion | virc/analysis/ir_subtype.h:57-63 | what is below a member is below the union |
| IRTypes.DisjointTypes | virc/analysis/sequent.h:346-357 | in the intermediate language an intersection of two types that are not unions is empty exactly if neither is a subtype of the other |
| IRTypes.IRAxiomsNotLawful | virc/analysis/ir_subtype.h:87-104 | contradiction of tuples is not inherited downward |
| RuntimeTypes.Program.SubtypeReflexive | vbci/program.cc:433-525 | the run-time relation is reflexive |
| RuntimeTypes.Program.SubtypeTransitive | vbci/program.cc:433-525 | it is transitive across Dyn, empty and nested unions, tuples, tuple against array, and wrappers, and terminates on every well-founded table; which pairs it relates is `Interning.SubtypeIsRTSubtype` |
| Layouts.UnionLayoutCoversMembers | vbci/program.cc:324-355 | a union with a layout holds whole values or has the layout of each member |
| Layouts.UnionLayoutExact | vbci/program.cc:324-355 | a union is malformed exactly if it has no members or a malformed one is met before two that differ, and has a layout other than whole values exactly if it is that of every member |
| Layouts.PackedExactly | vbci/program.cc:239-355 | a slot holds something other than whole values exactly if no union in its type is empty and all alternatives, however nested, have that very layout |
| Layouts.LayoutAgrees | vbci/program.cc:239-355 | the slot of a supertype has the subtype's layout or holds whole values; when it holds whole values is `Layouts.PackedExactly` |
| Layouts.TypedLayout | vbci/value.cc:305-343 | the type of a live primitive, object, array or cown is laid out by the value's own tag; among types that are not unions exactly Dyn and references hold whole values |
| Layouts.StoreRoundTrip | vbci/value.cc:103-303 | a value that passes the store's check is read back unchanged exactly when the slot holds whole values or the value is neither read-only nor a null cown |
| CompileTimeRunTime.CompileTimeSound | virc/analysis/ir_subtype.h:57-117 | without Dyn in unions, compile-time subtyping implies run-time subtyping of the entries |
| CompileTimeRunTime.RunTimeSound | vbci/program.cc:433-525 | without arrays or without tuples, run-time subtyping implies compile-time subtyping |
| CompileTimeRunTime.ChecksAgree | vbci/program.cc:433-525 | without Dyn in unions, and without arrays or without tuples, the two relations are one |
| CompileTimeRunTime.DynInUnionDiffers | vbci/program.cc:435-441 | Dyn inside a union is accepted by the compiler only |
| CompileTimeRunTime.TupleAsArrayDiffers | vbci/program.cc:501-514 | a tuple against an array is accepted by the interpreter only, and by neither if an element does not fit |
| Interning.SortedUnique | virc/model/compilation.cc:457-460 | ascending, and the same members |
| Interning.OneEntry | virc/model/compilation.cc:474-481 | in an interned table two types share an id exactly if they are the same up to order and repetition of union members |
| Interning.SubtypeIsRTSubtype | vbci/program.cc:433-525 | on any interned table, for all types: the check on two ids is the relation on the types they stand for that has the rule for tuples against arrays, decomposes unions, keeps wrappers invariant, and has Dyn below nothing but itself |
| Interning.DenotesExtends | virc/model/compilation.cc:478-481 | ids keep their meaning while the table grows |
| Interning.Compilation.constructor | virc/model/compilation.cc:478-478 | the empty table: complex ids start behind primitives and classes |
| Interning.Compilation.Intern | virc/model/compilation.cc:474-481 | an entry gets the id it has or the next one, and the table stays interned and well founded |
| Interning.Compilation.TypeIdOf | virc/model/compilation.cc:402-482 | the id returned stands for the type, and the table only grows |
| Interning.CompileAndCheck | virc/model/compilation.cc:402-482 | two types interned in turn: the interpreter's check on their ids is that relation, ids are shared exactly by types alike, and without Dyn in unions the compiler's answer carries over |
| Interning.BothChecks | virc/model/compilation.cc:402-482 | the same for any interned table |
| Shapes.FindMatchingFunction | vc/subtype.cc:89-112 | the first function with the same name, handedness and arity, or none if there is none |
| Shapes.AssumingShrinks | vc/subtype.cc:361-362 | each nested check has one pair less to assume, so checking terminates |
| ShapesEngine.EqualityQuery | virc/analysis/sequent.h:266-283 | what the search answers between unions under the two implications that equate two atoms |
| ShapesEngine.EngineComputesSub | vc/subtype.h:14-203 | the engine, with the compiler's table and in the contexts of a shape check in either order, computes the relation of the model |
| ShapesEngine.DisjointAtoms | vc/subtype.h:136-202 | for every kind of pair, when the compiler takes an intersection of two atoms for empty: never with the self type, by the definitions for names, and otherwise exactly if neither is below the other |
| ShapesGreatest.NeverRefused | vc/subtype.cc:114-232 | the quick refusal never refuses a related pair, in either direction |
| ShapesGreatest.CheckComplete | vc/subtype.cc:307-403 | under any assumptions every pair of a post-fixed relation is accepted |
| ShapesGreatest.StableIsGreatest | vc/subtype.cc:307-403 | the approximations from above end in the greatest structural relation |
| ShapesGreatest.LevelTransitive | vc/subtype.cc:370-399 | without the self type every approximation is transitive, with parameters contravariant and results covariant |
| ShapesGreatest.CheckPlausible | vc/subtype.cc:365-400 | whatever is assumed, an accepted pair matches by key and outermost constructors |
| ShapesGreatest.RelatedAgree | vc/subtype.cc:410-476 | without the self type related definitions never conflict |
| ShapesGreatest.NoConflict | vc/subtype.cc:410-476 | shapes whose shared functions compare one way do not conflict, under any assumptions |
| ShapesGreatest.CheckSound | vc/subtype.cc:307-403 | an accepted pair survives every approximation that its assumptions survive |
| ShapesGreatest.AcceptsGreatest | vc/subtype.cc:307-403 | the check accepts every pair of the greatest relation, in every program |
| ShapesGreatest.CheckIsGreatest | vc/subtype.cc:307-403 | the check is the greatest relation, with the self type standing for the left-hand side: without contradiction axioms always, with them when no shapes conflict that a check can meet together |
| ShapesGreatest.QueryIsRelated | vc/subtype.h:14-131 | the same for queries between types |
| ShapesGreatest.ContradictionsOnlyAdd | vc/subtype.h:132-203 | the contradiction axioms take no answer back, in any program |
| ShapesGreatest.GreatestIsPlain | vc/subtype.cc:307-403 | without the self type the relation is the greatest of the plain structural rule, and transitive |
| ShapesGreatest.QueryTransitive | vc/subtype.h:14-131 | and queries between types compose |
| ShapesGreatest.SelfIsNotTransitive | vc/subtype.cc:307-403 | a program with the self type on which two accepted pairs do not compose |
| ShapesLoophole.AcceptsTooMuch | vc/subtype.h:149-202 | a program on which the check accepts a pair outside the greatest relation |
| ShapesHarmless.ExactAllTheSame | vc/subtype.h:149-202 | a program with conflicting shapes on which the check is the greatest relation |
| ShapesLoophole.WrongAnswer | vc/subtype.cc:307-403 | there each of two wrong answers is given while the other is not assumed |
| ShapesLoophole.Refused | vc/subtype.cc:307-403 | and refused while it is |
| Regions.CountsDetermined | vbci/thread.cc:651-743 | what has been reported and the parent relation determine every count |
| Regions.DeadIsQuiet | vbci/region.h:230-235 | in a freed tree no region has been reported a reference |
| Regions.QuietSubtree | vbci/region.h:98-115 | below a region with count zero nothing has been reported |
| Regions.Adopt | vbci/region.h:165-180 | a new parent keeps the forest and shifts one unit of balance |
| Heaps.Heap.StackInc | vbci/region.h:64-85 | the cascade ends, keeps every count balanced, and adds exactly the references reported |
| Heaps.Heap.StackDec | vbci/region.h:87-118 | likewise; it answers false exactly when the root of the tree has been freed |
| Heaps.Heap.FreeRegion | vbci/region.h:230-235 | only an unowned region with count zero is freed |
| Heaps.Heap.IsAncestorOf | vbci/region.h:120-131 | the walk decides proper ancestry |
| Heaps.Heap.SetParent | vbci/region.h:165-180 | counts stay balanced, the forest stays a forest, and nothing live dies |
| Heaps.Heap.ClearParent | vbci/region.h:182-193 | the child is freed if nothing reaches it; otherwise one report is withdrawn from the parent |
| Heaps.Heap.MoveRegion | vbci/header.h:101-106 | a header changes region and nothing else does |
| Heaps.Heap.SetCownOwner | vbci/region.h:200-207 | a cown becomes the owner, counts unchanged |
| Heaps.Heap.ClearCownOwner | vbci/region.h:209-218 | the region is freed exactly when its count is zero |
| RegionRuns.CountMeansReached | vbci/thread.cc:651-743 | a count is zero exactly when no stack-side reference reaches the region or anything below it |
| RegionRuns.Perform | vbci/region.h:64-235 | one operation is performed exactly when the run before it permits it, and what is freed stays freed |
| RegionRuns.Run | vbci/region.h:64-235 | how far a run gets, its references, owners and entries, and what has been freed are functions of the run alone: a region is freed exactly when something owned or reached it once and nothing does now, and for good; counts mean reachability, and nothing at or below a freed region is held |
| RegionRuns.FreshIsUsable | vbci/region_rc.h:20-23 | after any legal run a new region can be referenced and given to a cown at once |
| Drags.TraceFields | vbci/drag.cc:22-26 | the region-located targets of the fields, each with its field, once |
| Drags.Visit | vbci/drag.cc:28-104 | one turn: refused only if no drag is possible, otherwise the traversal's accounts stay exact |
| Drags.Judge | vbci/drag.cc:51-103 | the same for a header not met before |
| Drags.RouteGoesOn | vbci/drag.cc:19-35 | one turn of the traversal is one step along an order that the heap before the drag determines |
| Drags.RouteStops | vbci/drag.cc:45-94 | where something stops it, a region has been met in time exactly when it was met before |
| Drags.Trace | vbci/drag.cc:28-104 | the traversal ends with every reference found counted, over the least set that has to move; it fails exactly if no drag is possible, and exactly if something on its way stops it; on success and on failure the exchanged reference is taken over exactly when something in its heap region is met before that |
| Drags.LeastIsDragSet | vbci/drag.cc:28-104 | the set that is moved is determined by the heap before the drag |
| DragCommit.RcSplits | vbci/drag.cc:119-134 | an object's count is its internal references plus those from outside |
| DragCommit.RefsIntoDestination | vbci/drag.cc:119-136 | how a drag changes the stack-side references into the destination |
| DragCommit.RefsIntoOthers | vbci/drag.cc:112-117 | and into every other region |
| DragCommit.AdoptAll | vbci/drag.cc:112-117 | the sub-regions become children of the destination, each giving up one report |
| DragCommit.MoveAll | vbci/drag.cc:119-134 | exactly the dragged headers move, and the destination is reported what they bring |
| DragCommit.CommitToHeap | vbci/drag.cc:106-140 | guard, adoption, moves and retraction together: forest, counts and ownership afterwards |
| DragExact.ClosedAfter | vbci/drag.cc:28-104 | after a drag nothing refers to something that dies earlier |
| DragExact.RcExactAfter | vbci/drag.cc:119-134 | object counts stay exact |
| DragExact.DragWorks | vbci/drag.cc:28-104 | a completed traversal shows that the drag is possible |
| DragExact.DragAllocation | vbci/drag.cc:10-141 | it succeeds exactly when a drag is possible, moves exactly what has to move, takes the exchanged reference over, on success and on failure, exactly when something in its heap region is met in time, frees a destination exactly when its tree is released, keeps every invariant with its accounts exact up to a stated excess, and on failure changes nothing but the exchanged reference |
| WriteBarrier.FrozenRefuses | vbci/writebarrier.h:35-76 | every store into a frozen or immortal object is refused, and frozen and immortal values can be stored anywhere else |
| WriteBarrier.StoredRefs | vbci/writebarrier.h:202-227 | how a store changes the stack-side references into each region |
| WriteBarrier.StoredPointing | vbci/writebarrier.h:202-227 | how it changes the references to each header |
| WriteBarrier.SoundStored | vbci/writebarrier.h:202-227 | object counts, membership and lifetimes after a store into heap storage |
| WriteBarrier.SingleEntryStored | vbci/writebarrier.h:158-176 | a store whose region gains or loses its parent with its reference keeps the single-entry rule |
| WriteBarrier.ApplyIn | vbci/writebarrier.h:229-249 | parent first, then the report: counts and forest afterwards |
| WriteBarrier.ApplyOut | vbci/writebarrier.h:251-268 | the report of the outgoing value, and its parent taken away |
| Exchanges.Refusals | vbci/writebarrier.h:70-176 | a store into a heap region is refused exactly for a stack value, a second entry, or a cycle |
| Exchanges.SwapBreaks | vbci/writebarrier.h:161-163 | a swap inside one sub-region breaks the single-entry rule |
| Exchanges.ExchangePlain | vbci/writebarrier.h:355-373 | a store without a drag: graph, counts, owners, entries and every invariant, except after such a swap |
| Exchanges.ExchangeDragging | vbci/writebarrier.h:187-200 | a store with a drag: it succeeds exactly when the drag can, and keeps the invariant exactly when the drag, judged on the heap before it, is clean; refused, it keeps the invariant exactly when it has taken nothing over, which the heap before it determines |
| Exchanges.Exchange | vbci/writebarrier.h:355-373 | the whole exchange into heap storage: exactly when it succeeds; its whole effect on the graph, with copies of frozen objects counted too, on owners, on entries (a new child is entered through the object that its parent refers to, a region that loses its parent has none, all others keep theirs) and, on failure, on the reports; and, done or refused, exactly when every invariant is kept, all in terms of the heap before it |
| ExchangeEntries.EntriesAfter | vbci/writebarrier.h:229-268 | where the entry recorded for every region is what its parent refers to, it stays so exactly if the store is no swap inside a sub-region and every dragged reference into a child of the destination refers to the entry of that child |
| ExchangeEntries.ExchangeKeepingEntries | vbci/writebarrier.h:355-373 | the same of the exchange itself, read off the heap before it |
| FrameExchanges.FramePlan | vbci/writebarrier.h:35-176 | the plan of a store on the frame side; only a stack value that the slot would outlive is refused |
| FrameExchanges.FrameDragWorks | vbci/drag.cc:59-63 | a drag into a frame region is never refused for a value off the stack |
| FrameExchanges.ExchangeOnFrame | vbci/writebarrier.h:355-373 | the exchange on stack and frame-local storage: when it is refused, when undefined, its effect on graph, counts, owners and entries, which count it leaves inexact, and exactly when every invariant is kept |
| RegisterExchanges.ExchangeRegister | vbci/value.cc:995-1038 | a store into a variable of an older frame: refused only for a stack value of a younger frame; a copy is counted, no owner or entry changes, every invariant is kept, and what each register refers to lives at least as long as its frame |
| Failures.SwapLosesParent | vbci/writebarrier.h:161-163 | a heap in order, and a swap after which it is not |
| Failures.DragEntersTwice | vbci/drag.cc:81-82 | a heap in order, and a store with a drag after which it is not |
| Failures.DragLeavesEntry | vbci/drag.cc:73-77 | a heap in order, and a store with a drag after which a recorded entry is not what the parent refers to |
| Failures.RefusedDragRetracts | vbci/drag.cc:73-77 | a heap in order, and a refused store after which one count is too low |
| Failures.FrameStoreOrphans | vbci/writebarrier.h:62-64 | a heap in order, and a store on the frame side after which a region has lost a parent that still refers to it |
| Failures.FrameStoreFails | vbci/writebarrier.h:62-64 | a heap in order, and a store on the frame side that is undefined |
| Failures.FrameDragMiscounts | vbci/drag.cc:73-77 | a heap in order, and a store on the frame side after which one count is too low |
| Failures.MergeFreesParent | vbci/merge.cc:100-113 | a heap in order, and a merge that frees the parent of its destination |
| Failures.MergeClosesCircle | vbci/merge.cc:86-98 | a heap in order, and a merge that hangs a region below its own descendant |
| Merging.Scan | vbci/merge.cc:57-80 | the scan finds the children of the source that a field of the source enters, with their entries |
| Merging.HandOver | vbci/merge.cc:87-98 | one child changes parent under its guard; nothing is freed |
| Merging.MergedCount | vbci/merge.cc:100-107 | the destination's count is the sum of the two |
| Merging.HandOverAll | vbci/merge.cc:86-98 | every child passes to the destination, unless one of them lies above it: then its new parent closes a circle |
| Merging.RetireParent | vbci/merge.cc:109-113 | freeing the source while the destination is its child leaves counts that no reports explain |
| Merging.MergeRegions | vbci/merge.cc:46-114 | exactly if the source is not above the destination, every object moves, every child is reparented and entered through an object that the destination refers to, counts add up, only the emptied source is freed, and every invariant is kept; otherwise which regions are left broken, and that no ranking and no reports fit them |
| UnionFind.LinkedRep | vbci/header.h:78-91 | linking a root to a higher one changes exactly the representatives of its class |
| UnionFind.CompressOne | vbci/header.h:86-88 | path compression changes no representative |
| UnionFind.Memory.Find | vbci/header.h:78-91 | it terminates, returns the representative, and only compresses |
| UnionFind.Memory.SccUnion | vbci/freeze.cc:34-47 | it stops exactly on members of one class; otherwise the classes are joined at the higher address with both counts less one |
| UnionFind.JoinedTotal | vbci/freeze.cc:44-46 | the total of the root counts drops by exactly one |
| UnionFind.Interleave | vbci/header.h:78-91 | any interleaving of finds and unions: the classes are those of the unions, and the total drops by one each |
| FreezeSteps.DiscoverKeeps | vbci/freeze.cc:157-166 | discovering a header keeps the search invariant |
| FreezeSteps.CompleteKeeps | vbci/freeze.cc:116-122 | completing a component keeps it |
| FreezeCollapse.Collapse | vbci/freeze.cc:130-141 | a back edge joins everything above its target; it fails exactly when the representative is not the bottom of its component |
| FreezeCollapse.CollapseKeeps | vbci/freeze.cc:130-141 | a back edge keeps the search invariant |
| FreezeOrder.SearchWithout | vbci/freeze.cc:57-88 | entries for frozen headers and heap headers do not change what the search does, so it does not depend on which of them `trace_fields` filters out |
| FreezeOrder.FollowDiscover | vbci/freeze.cc:157-166 | the program meets the headers in the order of the search that ignores addresses |
| FreezeLocals.TraceFields | vbci/freeze.cc:51-93 | the fields that go on the search stack, each once and in order |
| FreezeLocals.HighestIsRep | vbci/freeze.cc:136-136 | the bottom of a component is its representative exactly when it has the highest address |
| FreezeLocals.NotHighest | vbci/freeze.cc:136-136 | if it has not, some header is met before one of its own component that has a higher address |
| FreezeLocals.FreezeLocal | vbci/freeze.cc:95-168 | exactly when the search succeeds, as a function of its start, and that it does if nothing is met before a higher member of its component; then classes are the strongly connected components, roots are immutable, counts are the members' sums less the inner edges, nothing else changes, the heap roots are exact |
| FreezeLocals.OldestHighestIsNotEnough | vbci/freeze.cc:34-47 | a start on which the search fails although the header met first has the highest address |
| Stacks.Ordered | vbci/stack.cc:19-62 | live blocks lie one after the other |
| Stacks.BlocksApart | vbci/stack.cc:19-62 | they are aligned, inside one chunk and disjoint |
| Stacks.Undisturbed | vbci/stack.cc:39-50 | what is written at the top and beyond leaves every live block and every chunk end as it was |
| Stacks.Stack.Save | vbci/stack.cc:9-12 | the place behind the newest live allocation |
| Stacks.Stack.Restore | vbci/stack.cc:14-17 | exactly the allocations made since are given back |
| Stacks.Stack.Push | vbci/stack.cc:19-62 | refused exactly when larger than a chunk; otherwise the newest live allocation, at the top or, where that would not fit, at the start of the next chunk, whatever the memory held |
| Stacks.Stack.VisitHeaders | vbci/stack.h:42-78 | exactly the allocations since a save, once each and in order |
| Collection.Collector.Enqueue | vbci/collect.cc:143-166 | an item is taken up exactly when its region is not being finalized and it was not taken before |
| Collection.Collector.FinalizeContents | vbci/region_rc.cc:62-74 | every listed header is finalized once, what its finalizer asks for is taken up, and the list does not change meanwhile |
| Collection.Collector.Turn | vbci/collect.cc:67-104 | one turn of the first phase; what is finalized was asked for, and what is asked for is taken up |
| Collection.Collector.Drain | vbci/collect.cc:61-141 | first all finalizations, then headers are freed, then regions, and nothing is left to do |
| Collection.IdleIsGone | vbci/collect.cc:143-166 | between collections an item that can no longer be taken up has been freed |
| Collection.Collector.Collect | vbci/collect.cc:143-170 | for any finalizers: the item asked for and everything that a finalizer of the batch asked for is gone, nothing else is finalized, nothing is finalized or freed twice, nothing is freed before it is finalized, and a batch frees exactly what it finalizes |
| Collection.IdleBatch | vbci/collect.cc:106-130 | between collections everything finalized has been freed |
| Liveness.CollectDefs | vc/passes/infer.cc:1361-1374 | the declared locals that the body assigns |
| Liveness.CollectUses | vc/passes/infer.cc:1376-1398 | the locals mentioned that are not such definitions |
| Liveness.CollectKills | vc/passes/infer.cc:1400-1409 | the locals that the body assigns |
| Liveness.Succ | vc/passes/infer.cc:4386-4406 | the labels that control may pass to |
| Liveness.Relax | vc/passes/infer.cc:4446-4462 | one step of the loop keeps the approximation from below and reports whether it changed anything |
| Liveness.Solve | vc/passes/infer.cc:4440-4464 | the loop ends, and a local is live exactly when a path leads to a use with no earlier kill |
| Liveness.LiveLocals | vc/passes/infer.cc:4381-4464 | the same for labels and terminators |
| Leb128.AppendUleb | virc/vbc/emitter.cc:68-81 | the encoding is appended |
| Leb128.EncodeMeans | virc/vbc/emitter.cc:68-81 | the bytes spell the number, and only the last one ends it |
| Leb128.EncodeLength | virc/vbc/emitter.cc:68-81 | a 64-bit word takes at most ten bytes |
| Leb128.Uleb | vbci/program.h:111-124 | what the bytes taken spell, modulo the word; it fails exactly on truncated input |
| Leb128.TakesOnce | vbci/program.h:111-124 | the end of a number is determined by its bytes |
| Leb128.UlebRoundTrip | vbci/program.h:111-124 | a decoder in front of an encoded word reads that word and stops behind it |
| Leb128.ReadAll | vbci/program.h:111-124 | repeated decoding returns the list encoded and consumes exactly its bytes |
| Leb128.ZigzagRoundTrip | virc/vbc/emitter.cc:41-52 | decoding inverts zigzag on all signed words, and small magnitudes get small codes |
| Leb128.UnzigzagRoundTrip | vbci/program.h:94-99 | zigzag inverts decoding on all words |

## Left out

- Exchanges.Exchange: references to registers, fields and cowns as values in slots are not modelled, nor are stores through a reference to a cown; slots hold object references.
- Exchanges.Exchange: another register must hold the object that is written to, as every bytecode that stores does, and the read-only flag of values is checked by its callers.
- Merging.MergeRegions: where a region becomes its own ancestor the model stops, because the cascades of the source then go in a circle; the steps before that are all carried out. The checks of `merge` itself (vbci/merge.cc:116-187) add only case distinctions.
- FreezeLocals.FreezeLocal: its second phase, the freezing of heap regions (vbci/freeze.cc:170-318), is exact on acyclic graphs only and is left out; the assertion that fails is taken to stop the program.
- FreezeLocals.FreezeLocal: the atomic count `arc` that a representative receives is the value of its plain count at that moment, and is not a second field.
- ShapesGreatest.CheckIsGreatest: with contradiction axioms the absence of conflicts that a check can meet is sufficient and not necessary; a condition that is both is not given.
- ShapesEngine.EngineComputesSub: one level of the search is run by the engine, with nested queries answered by the relation it is shown to compute; types have unions and tuples, no intersections, negations or unresolved literals.
- Generics: type arguments, type parameters and aliases are taken as resolved in both type checks.
- CompileTimeRunTime.CompileTimeSound: Dyn in a union is excluded, because the interpreter rejects what the compiler accepts there.
- Layouts.StoreRoundTrip: widths of machine words are not modelled; a payload is a number that fits its slot.
- Collection.Collector.Collect: finalizers are modelled by the collections they ask for; what they do to fields and counts is the subject of the other modules. Immutable headers, which belong to no region, are not modelled.
- Stacks.Stack.Push: the contents of a block behind its header are arbitrary, so that nothing depends on them; a cell shows what a header read at its offset would show.
- `init` and `drop` (vbci/writebarrier.h:340-430): `init` is a moving exchange on an empty slot, and `drop` takes the fields of a dying object back.
- `collect_scc` (vbci/collect.cc:173-225), counts of frozen classes and their collection.
- Arena regions: they keep no object counts.
- The rest of type inference: its main loop is capped by a number of iterations and has no fixpoint to characterize.
- Bytecode dispatch, frames and register files, the scheduler, foreign calls, parsing and rewriting passes.
- Leb128.Uleb: bit operations on disjoint bits are written as sums.
