# SVF in Dafny

A model of six parts of the static value-flow analysis framework SVF, with proofs of what
they promise. `dafny verify dfyconfig.toml` checks everything.

| files | part of SVF |
|---|---|
| `ValueFlowGraph`, `DemandDrivenSteps`, `QueryOrder`, `DDAVFSolver`, `PerVariableCache`, `FirstQuery`, `FirstQueryGraph` | the demand-driven points-to solver in its flow-sensitive instance |
| `ConstantExprIR`, `BreakConstantExpr` | the pass that breaks constant expressions into instructions |
| `CallStackWalk`, `ObjTypeInference` | allocation and type inference |
| `TypeFlattening`, `SVFIRBuilder` | flattened type layout, GEP offsets and global initialisers |
| `DebugTypes`, `DCHG`, `CHGBuilder`, `VTableSplitter` | canonical debug types, class hierarchy, virtual-function numbering, vtable splitting |
| `ControlFlow`, `ICFGBuilder` | construction of the interprocedural control flow graph |
| `Wrappers`, `Concatenation`, `Reachability` | options and 32-bit integers, sequences put together from blocks, and paths in graphs, used by several parts |

**Demand-driven solver.** An item is a variable or object at a graph node. `FindPT` marks an
item before evaluating it, returns partly filled caches on cycles, and re-runs known
dependents from inside the recursion whenever a cache grows. Every equation of the graph is
given once (`Flow`). With a cached set for every item, as in the base class, the exactness
theorem says of every graph that after any sequence of queries, in any order, every completed
cache is the least solution of the equations. Sets that the pre-analysis forces onto items
whose query ran out of budget are part of the equations (`seeds`); without such a query there
are none, and only where there are some must the pre-analysis satisfy the equations from above.
The recursion terminates by the facts still missing from the caches, then the items not yet
marked.

`FlowDDA` caches the sets of top-level variables per variable (`byVariable`), and there the
theorem is false. The nodes of actual parameters and formal returns carry a variable that
another node defines; the model calls them relays. When the variable grows at its definition, a
relay that is re-evaluated finds the grown set in the cache already, sees no growth and does
not tell the nodes that read it. `PerVariableCache` gives two graphs on which an answer comes
out empty, one with a recursive call and one without any cycle, and `FirstQuery` an acyclic one
on which even the first query of a fresh solver is answered too small. What holds of all graphs
and all sequences of queries is this. No answer exceeds the least solution. The only items that
can miss their equation (`exempt` during a query, `doubtful` after it) are those that read a
relay, in a query that can visit them, before the relay's variable was completed; all completed
caches are exact if and only if these items satisfy their equations. So queries are exact if
every variable of which a query can read a relay was asked for before it (`InOrder`), which a
caller can check on the graph. An order that serves a variable exists exactly if what it needs
can be ranked (`InOrderIffRanked`). Without relays, as after the optimisation of the graph that
is off by default, any order will do.

**Constant expressions.** A function is blocks of phis and instructions over a machine whose
effects, folding and branching are arbitrary functions. Constant expressions are pure and
total. The meaning of a run is the position, the memory and the registers after any number of
blocks.

**Inference.** Both walks are one state machine over pairs of a value and a flag (`Step`),
proved for any starting cache and, for an empty one, exact. The instruction cases of the
backward walk are the constructors of `Def`; those of the forward walk are abstracted into the
values a value flows to and the sites it contributes. The order of field counts goes through a
comparison of 32-bit counts as signed integers, so the type selected is the largest one exactly
if no two counts lie on different sides of 2^31.

**Layout.** Counts and indices are reduced to 32 and 64 bits where the source computes them in
these widths. `Fits` says that the counts of a type can be stored; the recorded index of an
array element is right exactly if it is below 2^32, also beyond that. A path in an array
without elements, which has a dummy element, ends there.

**Initialisers.** Whatever the options, a scalar lands on the field of its own flattened
element (`InitialiserPlacesSlots`). Not every scalar is stored: block addresses never are, and
by default, with constants not modelled, neither are those of data sequences such as
`{1, 2, 3}`. `InitialiserStores` says exactly when all of them are.

**Hierarchies.** Debug types are identified by address, and chains of base types are finite.
That a hierarchy is acyclic is given as a ranking of its nodes, a ghost argument of `Cha`.

**Control flow graph.** Blocks end with a terminator that is no intrinsic, and the dominance
information flags at least the unreachable blocks. If an unreachable block starts with an
intrinsic, that intrinsic gets a node; this is exactly when an intrinsic has one.

## Model

| member | source | states |
|---|---|---|
| `ValueFlowGraph.StoreSrcsMonotone` | svf/include/DDA/DDAVFSolver.h:204-245 | a store whose target set grows, from empty to a strongly updated singleton to a larger set, never stops reading what it read |
| `ValueFlowGraph.SrcsMonotone` | svf/include/DDA/DDAVFSolver.h:170-252 | every equation reads more when the sets grow, strong updates included |
| `ValueFlowGraph.FlowMonotone` | svf/include/DDA/DDAVFSolver.h:170-252 | the points-to equation of every kind of node is monotone |
| `ValueFlowGraph.ReadsDetermineFlow` | svf/include/DDA/DDAVFSolver.h:170-252 | the value of an equation depends on nothing but the items it reads |
| `ValueFlowGraph.ReadsAreDependencies` | svf/include/DDA/DDAVFSolver.h:255-314 | each item an equation reads is one it may read under some sets and one whose growth makes the solver re-evaluate that equation |
| `ValueFlowGraph.LeastExists` | svf/include/DDA/DDAVFSolver.h:170-252 | the equations, with sets forced onto some items, have a least solution within the objects |
| `ValueFlowGraph.LeastSolvesEquations` | svf/include/DDA/DDAVFSolver.h:170-252 | the least solution satisfies every equation with equality, so nothing in it is unjustified |
| `ValueFlowGraph.ScopeIsClosed` | svf/include/DDA/DDAVFSolver.h:170-252 | the items a query can visit are closed under what evaluating them leads on to |
| `ValueFlowGraph.ScopeStaysIn` | svf/include/DDA/DDAVFSolver.h:170-252 | a query visits nothing outside any closed set of items that contains its own |
| `DemandDrivenSteps.StableThrough` | svf/include/DDA/DDAVFSolver.h:276-314 | a stable item stays stable while nothing it depends on grows |
| `DemandDrivenSteps.PreservesTransitive` | svf/include/DDA/DDAVFSolver.h:138-166 | the guarantee of a nested evaluation composes: what the inner call leaves stable or untouched the outer call may rely on |
| `DemandDrivenSteps.PreservesAfterClear` | svf/include/DDA/DDAVFSolver.h:298-311 | clearing the mark of a known item and evaluating it again keeps the guarantee for all other items |
| `DemandDrivenSteps.PreservesAfterRecord` | svf/include/DDA/DDAVFSolver.h:588-601 | making a load record changes nothing that the guarantee speaks of |
| `DemandDrivenSteps.LoadGathersFlow` | svf/include/DDA/DDAVFSolver.h:192-203 | going back along the indirect edges for each target of a load collects the load's equation, even if sets grow meanwhile |
| `DemandDrivenSteps.StoreGathersFlow` | svf/include/DDA/DDAVFSolver.h:204-245 | going back for each target of a store collects the store's equation, with strong and weak updates, even if the target set grows meanwhile |
| `DemandDrivenSteps.EvaluatedCovers` | svf/include/DDA/DDAVFSolver.h:157-164 | what was gathered covers the equation at the end, or the item was re-evaluated and is stable |
| `DemandDrivenSteps.EvaluatedIsStable` | svf/include/DDA/DDAVFSolver.h:157-164 | after gathering and merging an item, if not exempt, satisfies its equation with everything it reads visited, whatever nested calls did |
| `DemandDrivenSteps.VisitedThenEvaluated` | svf/include/DDA/DDAVFSolver.h:152-165 | marking an item before evaluating it does not weaken the guarantee for the others |
| `DemandDrivenSteps.RecomputedOneItem` | svf/include/DDA/DDAVFSolver.h:287-311 | the loop over the items at a node re-evaluates each of them although the loop body changes the set |
| `DemandDrivenSteps.MergedThenRecomputed` | svf/include/DDA/DDAVFSolver.h:563-571 | merging into a cache, which other items may share, and re-evaluating all known dependents leaves every known item stable, with unchanged dependencies or exempt |
| `DemandDrivenSteps.MergeSparesOthers` | svf/include/DDA/DDAVFSolver.h:255-314 | an item that is left unstable by a merge and its re-evaluations reads nothing that the merge changed, or is exempt |
| `DemandDrivenSteps.GrowthShrinksMissing` | svf/include/DDA/DDAVFSolver.h:563-571 | a merge that grows a cache removes a fact from the finite set of missing facts, which bounds all nested re-evaluation |
| `DemandDrivenSteps.OverlaySatisfies` | svf/include/DDA/DDAVFSolver.h:324-345 | replacing the least solution by the caches on completed items still satisfies every equation |
| `DemandDrivenSteps.SettledIsExact` | svf/include/DDA/DDAVFSolver.h:138-166 | completed caches that satisfy their equations and are closed under what they read equal the least solution exactly |
| `DemandDrivenSteps.ExactIffSatisfied` | svf/include/DDA/DDAVFSolver.h:138-166 | with some completed items in doubt, all completed caches equal the least solution if and only if the doubtful items satisfy their equations |
| `DemandDrivenSteps.QuerySettles` | svf/include/DDA/DDAVFSolver.h:138-166 | a query within budget completes everything it visited and leaves in doubt only exempt items |
| `DemandDrivenSteps.CompletedUntouched` | svf/include/DDA/DDAVFSolver.h:324-345 | a query changes no cache that an earlier query completed |
| `DemandDrivenSteps.ForcedItemSettles` | svf/lib/DDA/FlowDDA.cpp:72-79 | a query out of budget completes its own item only, by forcing the pre-analysis set onto it |
| `DDAVFSolver.FlowDDA.constructor` | svf/include/DDA/DDAVFSolver.h:46-68 | on every graph a fresh solver has nothing completed, seeded or in doubt and satisfies the invariant between queries |
| `DDAVFSolver.FlowDDA.MarkbkVisited` | svf/include/DDA/DDAVFSolver.h:539-542 | marks exactly the item |
| `DDAVFSolver.FlowDDA.ClearbkVisited` | svf/include/DDA/DDAVFSolver.h:547-551 | unmarks exactly the item, which is marked |
| `DDAVFSolver.FlowDDA.AddDpmToLoc` | svf/include/DDA/DDAVFSolver.h:667-670 | the item becomes known at its own node and nothing else does |
| `DDAVFSolver.FlowDDA.AddLoadDpmAndCVar` | svf/include/DDA/DDAVFSolver.h:680-713 | a record names the item's own object, and the invariant that every known address-taken item has one is kept |
| `DDAVFSolver.FlowDDA.TestOutOfBudget` | svf/include/DDA/DDAVFSolver.h:724-730 | once out of budget a query stays so; forced items are never evaluated |
| `DDAVFSolver.FlowDDA.FindPT` | svf/include/DDA/DDAVFSolver.h:138-166 | on every graph: returns the cache, terminates although marks are cleared, and leaves every newly known item stable, with everything it reads visited, and every other known item stable or with unchanged dependencies; with a set per variable an exempt item may miss its equation |
| `DDAVFSolver.FlowDDA.ComputePT` | svf/include/DDA/DDAVFSolver.h:152-165 | the same for an unmarked item: it is marked before it is evaluated |
| `DDAVFSolver.FlowDDA.Evaluate` | svf/include/DDA/DDAVFSolver.h:157-164 | the item ends stable, with everything it reads visited, unless the budget ran out |
| `DDAVFSolver.FlowDDA.HandleSingleStatement` | svf/include/DDA/DDAVFSolver.h:170-252 | what is gathered lies between the equation before the call and the equation after it |
| `DDAVFSolver.FlowDDA.ResolveFunPtr` | svf/include/DDA/DDAVFSolver.h:494-517 | resolving function pointers first keeps the guarantee |
| `DDAVFSolver.FlowDDA.HandleStatement` | svf/include/DDA/DDAVFSolver.h:175-252 | the case of each node kind gathers its equation, and all items read are visited |
| `DDAVFSolver.FlowDDA.HandleLoad` | svf/include/DDA/DDAVFSolver.h:192-203 | as HandleStatement, for loads; nothing for a non-pointer |
| `DDAVFSolver.FlowDDA.LoadThroughAll` | svf/include/DDA/DDAVFSolver.h:199-202 | the union over all load targets, one object at a time |
| `DDAVFSolver.FlowDDA.HandleStore` | svf/include/DDA/DDAVFSolver.h:204-245 | as HandleStatement, for stores; nothing for a non-pointer |
| `DDAVFSolver.FlowDDA.StoreToAll` | svf/include/DDA/DDAVFSolver.h:222-243 | the union over all store targets, with passed-through contents where no target is a strong update |
| `DDAVFSolver.FlowDDA.StoreTo` | svf/include/DDA/DDAVFSolver.h:224-242 | one store target: the stored value if it is the item's object, the incoming contents otherwise |
| `DDAVFSolver.FlowDDA.StoreToObject` | svf/include/DDA/DDAVFSolver.h:226-237 | the stored value, and the incoming contents unless the update is strong |
| `DDAVFSolver.FlowDDA.GetDPImWithOldCond` | svf/include/DDA/DDAVFSolver.h:588-601 | the load record looked up exists and equals the item's own object |
| `DDAVFSolver.FlowDDA.BackwardPropDpm` | svf/include/DDA/DDAVFSolver.h:426-447 | the source item of an edge is evaluated and united, and an indirect source gets a load record first |
| `DDAVFSolver.FlowDDA.BacktraceAlongDirectVF` | svf/include/DDA/DDAVFSolver.h:374-389 | unites the sets of all direct sources |
| `DDAVFSolver.FlowDDA.BacktraceAlongIndirectVF` | svf/include/DDA/DDAVFSolver.h:352-372 | unites the sets of all indirect sources whose guard holds the object; none for a constant object |
| `DDAVFSolver.FlowDDA.BacktraceToStoreSrc` | svf/include/DDA/DDAVFSolver.h:413-423 | unites the set of the stored value |
| `DDAVFSolver.FlowDDA.StartNewPTComp` | svf/include/DDA/DDAVFSolver.h:392-411 | returns the targets of the pointer operand, whose item is visited |
| `DDAVFSolver.FlowDDA.UnionDDAPts` | svf/include/DDA/FlowDDA.h:154-165 | the given set is added to the cached set of exactly the items that share it: the item alone, or all items of a top-level variable |
| `DDAVFSolver.FlowDDA.FlowMayMerge` | svf/include/DDA/FlowDDA.h:160-165 | what a relay gathers is in the cached set of its variable already |
| `DDAVFSolver.FlowDDA.UnitesIsMerged` | svf/include/DDA/FlowDDA.h:160-165 | where a set is shared per variable, a merge at the definition changes other items too, but none completed, and only exempt items read those |
| `DDAVFSolver.FlowDDA.MergedIsBounded` | svf/include/DDA/FlowDDA.h:160-165 | a merge stays below the least solution also at the items that share the set |
| `DDAVFSolver.FlowDDA.UpdateCachedPointsTo` | svf/include/DDA/DDAVFSolver.h:563-571 | the cache contains the set, and unless the budget ran out all dependents of a grown cache but the exempt ones are stable again |
| `DDAVFSolver.FlowDDA.ReCompute` | svf/include/DDA/DDAVFSolver.h:255-273 | every known item across an outgoing edge of a grown item is re-evaluated where the edge can matter to it |
| `DDAVFSolver.FlowDDA.ReComputeForEdges` | svf/include/DDA/DDAVFSolver.h:276-314 | the same over any list of edges |
| `DDAVFSolver.FlowDDA.ReComputeItem` | svf/include/DDA/DDAVFSolver.h:290-311 | along an indirect edge into anything but a load only items of the same object are re-evaluated |
| `DDAVFSolver.FlowDDA.ReVisit` | svf/include/DDA/DDAVFSolver.h:297-298 | the mark is set when it is cleared and set again afterwards |
| `DDAVFSolver.FlowDDA.OOBResetVisited` | svf/include/DDA/DDAVFSolver.h:336-345 | exactly the query's items that are not forced lose their mark |
| `DDAVFSolver.FlowDDA.ResetQuery` | svf/include/DDA/DDAVFSolver.h:324-334 | between queries exactly the completed items stay marked |
| `DDAVFSolver.FlowDDA.RunQuery` | svf/lib/DDA/FlowDDA.cpp:43-57 | the evaluation starts from the completed items of earlier queries, keeps their guarantee and stays among the items the query can visit |
| `DDAVFSolver.FlowDDA.ComputeDDAPts` | svf/lib/DDA/FlowDDA.cpp:43-70 | for any history of queries on any graph: no cache exceeds the least solution given the forced sets, all completed caches equal it if and only if the items in doubt satisfy their equations, nothing completed earlier changes, and new doubts arise only at items that read a relay before its variable was completed, never with a set per item |
| `DDAVFSolver.FlowDDA.CompletedIsExact` | svf/include/DDA/DDAVFSolver.h:138-166 | between queries the completed caches are exactly the least solution if and only if the items in doubt satisfy their equations |
| `DDAVFSolver.FlowDDA.CompletedDefinitions` | svf/include/Graphs/VFG.h:592-631 | where a relay is completed, so is the definition of its variable |
| `DDAVFSolver.FlowDDA.HandleOutOfBudgetDpm` | svf/lib/DDA/FlowDDA.cpp:72-79 | the queried item gets the pre-analysis set and is completed; everything else of the query is exposed again |
| `DDAVFSolver.FlowDDA.ComputeWithoutFallback` | svf/include/DDA/DDAVFSolver.h:723-730 | where nothing is done about a query that ran out of budget it completes, forces and changes nothing, so that later queries need no seed |
| `DDAVFSolver.FlowDDA.AnswerQueries` | svf/lib/DDA/DDAClient.cpp:46-76 | after any sequence of queries no answer is too large; with a set per item, or with the queries in order, no doubt is added and without doubts each answer equals the least solution; exactly the items whose query ran out of budget are seeded |
| `QueryOrder.UnreadyIffNeeded` | svf/include/DDA/FlowDDA.h:154-165 | a query leaves no doubt if and only if every variable of which it can read a relay is completed |
| `QueryOrder.InOrderIffAskedBefore` | svf/include/DDA/FlowDDA.h:154-165 | queries are in order if and only if every variable a query needs was asked for before it |
| `QueryOrder.AnyOrderWithoutRelays` | svf/include/Graphs/VFG.h:592-631 | on a graph without relays every order will do |
| `QueryOrder.InOrderIffRanked` | svf/include/DDA/FlowDDA.h:154-165 | a variable can be asked for in order if and only if what it needs, and what that needs, can be ranked; one that needs itself cannot |
| `PerVariableCache.AnswerDependsOnOrder` | svf/include/DDA/FlowDDA.h:154-165 | of the recursion written out as a function: on a graph with a recursive call the answer for the parameter is empty when asked after the variable passed, and right when asked first |
| `PerVariableCache.AcyclicIsNotEnough` | svf/include/DDA/FlowDDA.h:154-165 | of the recursion written out as a function: on a graph without cycles the answer for a parameter is empty when asked after another variable |
| `FirstQuery.FirstAnswerIsTooSmall` | svf/include/DDA/FlowDDA.h:154-165 | of the recursion written out as a function: on a graph without cycles even the first query of a fresh solver is answered too small |
| `PerVariableCache.VariableFirst` | svf/include/DDA/FlowDDA.h:154-165 | on that graph asking for the variable passed before the others is in order |
| `PerVariableCache.RecursionHasNoOrder` | svf/include/DDA/FlowDDA.h:154-165 | with the recursive call the variable passed cannot be asked for in order, and an order that happens to work need not be in order |
| `PerVariableCache.RecursionExists` | svf/include/Graphs/VFG.h:592-631 | such a recursive graph is well formed, and its relay copies from the definition |
| `PerVariableCache.AcyclicExists` | svf/include/Graphs/VFG.h:592-631 | so is such an acyclic graph |
| `FirstQueryGraph.FirstQueryExists` | svf/include/Graphs/VFG.h:592-631 | so is a graph for that first query |
| `BreakConstantExpr.NewInstValue` | svf-llvm/lib/BreakConstantExpr.cpp:163-175 | the new instruction computes the value of the constant expression |
| `BreakConstantExpr.ExecuteAllSimilar` | svf-llvm/lib/BreakConstantExpr.cpp:267-280 | instructions whose operand became the new register do the same to memory and to every original register |
| `BreakConstantExpr.SameIncoming` | svf-llvm/lib/BreakConstantExpr.cpp:240-264 | a phi takes a corresponding operand from every predecessor after all occurrences of a block were set |
| `BreakConstantExpr.ConvertedBlock` | svf-llvm/lib/BreakConstantExpr.cpp:252-259 | with the new instruction inserted a block computes the expression into its register and changes nothing else |
| `BreakConstantExpr.RunBlockSimilar` | svf-llvm/lib/BreakConstantExpr.cpp:229-282 | one conversion preserves the run of every block, phis and terminator included |
| `BreakConstantExpr.RunSimilar` | svf-llvm/lib/BreakConstantExpr.cpp:229-282 | one conversion preserves runs of any length |
| `BreakConstantExpr.ChainPreservesRuns` | svf-llvm/lib/BreakConstantExpr.cpp:229-282 | any number of conversions preserves runs of any length |
| `BreakConstantExpr.RewritingPreservesRuns` | svf-llvm/lib/BreakConstantExpr.cpp:187-286 | the pass preserves meaning: on every machine and from every state the rewritten function is at the same point with the same memory and original registers after any number of blocks |
| `BreakConstantExpr.ConvertIsConversion` | svf-llvm/lib/BreakConstantExpr.cpp:163-175 | inserting the instruction and replacing the operand is a conversion in the sense of the preservation theorems |
| `BreakConstantExpr.ConvertKeepsWellFormed` | svf-llvm/lib/BreakConstantExpr.cpp:163-175 | a conversion keeps blocks, placement and the rule that equal incoming blocks carry equal values |
| `BreakConstantExpr.PhiUserOk` | svf-llvm/lib/BreakConstantExpr.cpp:252-261 | setting all later occurrences of a block sets every occurrence, so the phi rule is kept |
| `BreakConstantExpr.ReplacingShrinks` | svf-llvm/lib/BreakConstantExpr.cpp:274-279 | replacing constant operands by registers shrinks their total size by at least one of them |
| `BreakConstantExpr.ConversionShrinksWork` | svf-llvm/lib/BreakConstantExpr.cpp:229-282 | each conversion shrinks the total expression size on the worklist, even with the new instruction pushed |
| `BreakConstantExpr.BreakConstantGEPs.ConvertExpression` | svf-llvm/lib/BreakConstantExpr.cpp:253-261 | the user is replaced, everything else with expressions to break is pending, and the measure falls |
| `BreakConstantExpr.BreakConstantGEPs.BreakPhi` | svf-llvm/lib/BreakConstantExpr.cpp:240-264 | afterwards no incoming value of the phi is to be broken |
| `BreakConstantExpr.BreakConstantGEPs.BreakOperands` | svf-llvm/lib/BreakConstantExpr.cpp:265-281 | afterwards no operand of the instruction is to be broken |
| `BreakConstantExpr.BreakConstantGEPs.CollectWorklist` | svf-llvm/lib/BreakConstantExpr.cpp:200-217 | the worklist holds exactly the instructions with an operand to break |
| `BreakConstantExpr.BreakConstantGEPs.RunOnFunction` | svf-llvm/lib/BreakConstantExpr.cpp:194-282 | terminates, and on exit no operand of any instruction, old or new, contains a GEP, unary or binary operator; reports whether anything was to be broken |
| `BreakConstantExpr.RunOnFunc` | svf-llvm/lib/BreakConstantExpr.cpp:191-284 | the result is well formed, has the same meaning and has nothing left to break |
| `BreakConstantExpr.RunOnModule` | svf-llvm/lib/BreakConstantExpr.cpp:187-286 | the same for every function, and modified is true exactly if some function had something to break |
| `CallStackWalk.UpdateIsSound` | svf-llvm/lib/ObjTypeInference.cpp:533-653 | recording the union of cached neighbours caches only what can be reached, whatever was cached before |
| `CallStackWalk.StepKeepsOk` | svf-llvm/lib/ObjTypeInference.cpp:549-642 | each iteration keeps the cache sound, earlier entries unchanged and pending updates for unrecorded values only |
| `CallStackWalk.StepWritesOnce` | svf-llvm/lib/ObjTypeInference.cpp:549-642 | an entry, once written, is never written again |
| `CallStackWalk.StepTerminates` | svf-llvm/lib/ObjTypeInference.cpp:549-642 | no pair of value and flag is expanded twice, and any other iteration shortens the worklist |
| `CallStackWalk.StepKeepsProgress` | svf-llvm/lib/ObjTypeInference.cpp:549-642 | each iteration of a fresh walk keeps the stack discipline: every pair lies above the pending update of a value that leads to it, and what is cached has reached the root or is owed to a pending update |
| `CallStackWalk.FinishedIsComplete` | svf-llvm/lib/ObjTypeInference.cpp:642-653 | when a fresh walk ends, the root's entry is exactly what can be reached from it, cycles included |
| `ObjTypeInference.GatherCached` | svf-llvm/lib/ObjTypeInference.cpp:555-573 | the update phase unites what the neighbours have cached |
| `ObjTypeInference.PushUncached` | svf-llvm/lib/ObjTypeInference.cpp:555-580 | the push phase queues the value's own update below its uncached neighbours |
| `ObjTypeInference.SourcesAreAllocations` | svf-llvm/lib/ObjTypeInference.cpp:582-636 | reachable sources are the allocations at the end of a backward path through non-allocations |
| `ObjTypeInference.AllocInference.BwFindAllocOfVar` | svf-llvm/lib/ObjTypeInference.cpp:533-653 | any query keeps all entries sound and earlier ones unchanged; with an empty cache the answer is exactly the allocations reachable backwards |
| `ObjTypeInference.AllocInference.Iterate` | svf-llvm/lib/ObjTypeInference.cpp:549-642 | the loop body does one step of the walk |
| `ObjTypeInference.SelectedIsLargest` | svf-llvm/lib/ObjTypeInference.cpp:712-726 | the selected type has the most fields if and only if the field counts do not lie on both sides of 2^31 |
| `ObjTypeInference.HugeTypeIsNotSelected` | svf-llvm/lib/ObjTypeInference.cpp:712-726 | a concrete pair of types of which the smaller is selected |
| `ObjTypeInference.SelectedIsUnique` | svf-llvm/lib/ObjTypeInference.cpp:712-726 | the selection does not depend on the order in which types are met |
| `ObjTypeInference.SelectLargestSizedType` | svf-llvm/lib/ObjTypeInference.cpp:712-726 | nothing for no types, else the first type of the key that the signed comparison puts first |
| `ObjTypeInference.InferredIsLargest` | svf-llvm/lib/ObjTypeInference.cpp:205-526 | the inferred type is one a reachable site suggests, with the most fields unless counts straddle 2^31, or the default without sites |
| `ObjTypeInference.TypeInference.FwInferObjType` | svf-llvm/lib/ObjTypeInference.cpp:205-526 | both caches keep the same values and earlier entries; objects need no walk; with empty caches the type is decided by exactly the sites reachable forwards |
| `ObjTypeInference.TypeInference.Iterate` | svf-llvm/lib/ObjTypeInference.cpp:241-510 | the loop body does one step of the walk and records the type of the sites it records |
| `TypeFlattening.ArrayElems` | svf-llvm/lib/LLVMModule.cpp:1362-1414 | flattening an array by repeating its innermost element agrees with repeating its direct element |
| `TypeFlattening.MemberSlice` | svf-llvm/lib/LLVMModule.cpp:1362-1478 | the flattened elements from the recorded index of a member on are those of the member, and the members' slices tile the whole |
| `TypeFlattening.RecordedIdxIsExact` | svf-llvm/lib/LLVMModule.cpp:1397-1403 | the division in 64 and 32 bits gives i members' elements if and only if that number is below 2^32 |
| `TypeFlattening.ElementIndex` | svf-llvm/lib/LLVMModule.cpp:1397-1403 | the recorded index of an element is where its block starts if and only if that start is below 2^32 |
| `TypeFlattening.ElementIndexCanWrap` | svf-llvm/lib/LLVMModule.cpp:1397-1403 | an array of 2 x 2^30 structs of eight fields, with fewer than 2^32 innermost elements, whose element 1 starts at 2^33 and is recorded at 0 |
| `TypeFlattening.TypeInfoTable.CollectTypeInfo` | svf-llvm/lib/LLVMModule.cpp:1253-1283 | the entry describes the type, earlier entries are unchanged, and the largest struct recorded has the most fields of all collected |
| `TypeFlattening.TypeInfoTable.CollectArrayInfo` | svf-llvm/lib/LLVMModule.cpp:1362-1418 | array information describes the type, the dummy element of an empty array included |
| `TypeFlattening.TypeInfoTable.CollectStructInfo` | svf-llvm/lib/LLVMModule.cpp:1425-1478 | struct information describes the type |
| `TypeFlattening.TypeInfoTable.CollectSimpleTypeInfo` | svf-llvm/lib/LLVMModule.cpp:1482-1493 | simple information describes the type |
| `TypeFlattening.CountElements` | svf-llvm/lib/LLVMModule.cpp:1364-1370 | the 64-bit product over all dimensions, and the innermost type |
| `TypeFlattening.RecordIndices` | svf-llvm/lib/LLVMModule.cpp:1397-1403 | each recorded index is the start of the element's block |
| `SVFIRBuilder.SubObjectSlice` | svf/lib/Graphs/IRGraph.cpp:144-167 | summing lookups along an in-bounds path gives the start of the addressed object's flattened block, with arrays modelled or not |
| `SVFIRBuilder.LeafPathsAreIndices` | svf-llvm/lib/SVFIRBuilder.cpp:636-704 | paths to scalars correspond one to one to the flattened indices |
| `SVFIRBuilder.GepReachesSubObject` | svf-llvm/lib/SVFIRBuilder.cpp:650-703 | behind any pointer index the summed offset of an in-bounds constant path is the start of the addressed object's block, and only a variable pointer index can make it variable |
| `SVFIRBuilder.Builder.GetFlattenedElemIdx` | svf/lib/Graphs/IRGraph.cpp:144-167 | the lookup returns where the member's block starts |
| `SVFIRBuilder.Builder.ComputeGepOffset` | svf-llvm/lib/SVFIRBuilder.cpp:636-704 | the constant in-bounds indices are summed, others add nothing, and the result is variable exactly for a scalar pointer indexed by a variable |
| `SVFIRBuilder.SlotsMatchElems` | svf-llvm/lib/SVFIRBuilder.cpp:867-940 | an initialiser, with its zero and undefined parts, has one slot per flattened element, member by member at the same index |
| `SVFIRBuilder.SlotIsAtItsPath` | svf-llvm/lib/SVFIRBuilder.cpp:906-913 | the k-th slot holds the scalar at the k-th leaf path of the type, and is empty exactly where that path meets a zero, an undefined value or, unless constants are modelled, a data sequence |
| `SVFIRBuilder.SlotFieldIsOffset` | svf/lib/Graphs/IRGraph.cpp:144-167 | the field of a flattened element is the sum of the lookups along its path, and its index if arrays are modelled |
| `SVFIRBuilder.EveryLeafStoredOnce` | svf-llvm/lib/SVFIRBuilder.cpp:871-904 | each scalar but a block address is stored exactly once, at its own field; all scalars are if and only if none is a block address |
| `SVFIRBuilder.InitialiserPlacesSlots` | svf-llvm/lib/SVFIRBuilder.cpp:867-940 | for every initialiser and with arrays and constants modelled or not, the edges added are those of the scalars that are modelled, in order, each at the field of its own flattened element |
| `SVFIRBuilder.AllPlacedIffModelled` | svf-llvm/lib/SVFIRBuilder.cpp:917-934 | every scalar that is spelled out is placed if and only if constants are modelled or there is no data sequence |
| `SVFIRBuilder.InitialiserStores` | svf-llvm/lib/SVFIRBuilder.cpp:867-940 | the stores of an initialiser are those of its modelled scalars but block addresses, once each; every scalar spelled out is stored if and only if none is a block address and constants are modelled or there is no data sequence |
| `SVFIRBuilder.DataIsNotPlaced` | svf-llvm/lib/SVFIRBuilder.cpp:917-934 | a data sequence of three integers adds nothing unless constants are modelled |
| `SVFIRBuilder.BlockAddressesAreNotStored` | svf-llvm/lib/SVFIRBuilder.cpp:890-897 | an array of two block addresses stores nothing |
| `SVFIRBuilder.Builder.InitialGlobal` | svf-llvm/lib/SVFIRBuilder.cpp:867-940 | the edges added are those of the initialiser, and none for a skipped vtable |
| `SVFIRBuilder.Builder.VisitGlobal` | svf-llvm/lib/SVFIRBuilder.cpp:945-968 | a global gets the edges of the modelled scalars of its initialiser, each at the field of its own flattened element counted from 0, and none for a skipped vtable |
| `DebugTypes.StripQualifiers` | svf-llvm/lib/DCHG.cpp:765-816 | the type beneath all qualifiers and typedefs |
| `DebugTypes.TeqIsSameKey` | svf-llvm/lib/DCHG.cpp:830-940 | types are equivalent exactly when they have the same key |
| `DebugTypes.TeqIsEquivalence` | svf-llvm/lib/DCHG.cpp:830-940 | equivalence is reflexive, symmetric and transitive |
| `DCHG.DCHGraph.GetCanonicalType` | svf-llvm/lib/DCHG.cpp:724-763 | an equivalent representative; representatives stay pairwise inequivalent and a class never gets another one |
| `DCHG.DCHGraph.CanonicalTypes` | svf-llvm/lib/DCHG.cpp:724-763 | over any sequence of calls two types get the same representative exactly when they are equivalent, and a representative is its own |
| `DCHG.DCHGraph.GetOrCreateNode` | svf-llvm/lib/DCHG.cpp:408-424 | equivalent types share one node, a new node changes nothing else and no cached closure |
| `DCHG.DCHGraph.AddEdge` | svf-llvm/lib/DCHG.cpp:435-450 | exactly this edge is added, once |
| `DCHG.DCHGraph.HasEdge` | svf-llvm/lib/DCHG.cpp:452-470 | whether the edge is there |
| `DCHG.DCHGraph.Cha` | svf-llvm/lib/DCHG.cpp:225-268 | on an acyclic hierarchy the memoised closure is exactly what reaches the type along allowed edges, whatever was asked before |
| `DCHG.DCHGraph.IsBase` | svf-llvm/lib/DCHG.cpp:677-686 | whether one type's node derives from the other's |
| `DCHG.DerivesIsPartialOrder` | svf-llvm/lib/DCHG.cpp:677-686 | on an acyclic hierarchy deriving-from is reflexive, transitive and antisymmetric |
| `DCHG.ClosureFromChildren` | svf-llvm/lib/DCHG.cpp:237-263 | a node with the closures of its children is the node's closure |
| `DCHG.ClosureGrowsWithFirstField` | svf-llvm/lib/DCHG.cpp:241-254 | the closure without first-field edges is contained in the one with them |
| `CHGBuilder.ConnectedIsEquivalence` | svf-llvm/lib/CHGBuilder.cpp:574-605 | being connected over edges in either direction is an equivalence |
| `CHGBuilder.CollectGroup` | svf-llvm/lib/CHGBuilder.cpp:574-605 | the group is a whole component and disjoint from everything visited before |
| `CHGBuilder.GroupsAreComponents` | svf-llvm/lib/CHGBuilder.cpp:569-605 | two classes share a group exactly when they are connected |
| `CHGBuilder.InsertByName` | svf-llvm/lib/CHGBuilder.cpp:640-648 | the set of pairs stays ordered by name, then function |
| `CHGBuilder.CHGBuilder.CollectFunctions` | svf-llvm/lib/CHGBuilder.cpp:607-625 | exactly the functions in the vectors of the group's classes |
| `CHGBuilder.CHGBuilder.AssignIDs` | svf-llvm/lib/CHGBuilder.cpp:650-654 | IDs are handed out along the list, and a later one replaces an earlier |
| `CHGBuilder.CHGBuilder.BuildVirtualFunctionToIDMap` | svf-llvm/lib/CHGBuilder.cpp:561-656 | the groups partition the classes into components, and IDs run along the groups' functions by name |
| `CHGBuilder.IdsAreDistinct` | svf-llvm/lib/CHGBuilder.cpp:650-654 | distinct functions have distinct IDs |
| `CHGBuilder.IdsAreConsecutive` | svf-llvm/lib/CHGBuilder.cpp:640-654 | functions of one name in one group stand at consecutive positions, and have the IDs of these positions if and only if no later group renumbers one of them |
| `VTableSplitter.SegmentsJoin` | svf-llvm/lib/CHGBuilder.cpp:400-535 | segments are cut exactly at the inttoptr entries and lose no other entry |
| `VTableSplitter.PaddingIsLastRun` | svf-llvm/lib/CHGBuilder.cpp:411-443 | the padding is the length of the last null run directly after a type-info entry, 0 without one |
| `VTableSplitter.VectorShape` | svf-llvm/lib/CHGBuilder.cpp:537-546 | an emitted vector is that many copies of the segment's first function and then its functions |
| `VTableSplitter.ContentIsKept` | svf-llvm/lib/CHGBuilder.cpp:400-548 | without padding the vectors, one after the other, are the table's functions unchanged |
| `VTableSplitter.ScanSegment` | svf-llvm/lib/CHGBuilder.cpp:405-536 | a segment's functions and padding, up to the next inttoptr entry |
| `VTableSplitter.Pad` | svf-llvm/lib/CHGBuilder.cpp:537-544 | inserting the i-th element in front k times prepends k copies of the first |
| `VTableSplitter.SplitVTable` | svf-llvm/lib/CHGBuilder.cpp:400-548 | the emitted vectors are those of the segments with functions; multiple inheritance exactly if the table has an inttoptr entry |
| `VTableSplitter.IsPureAbstract` | svf-llvm/lib/CHGBuilder.cpp:448-492 | purely abstract exactly if every function is the pure virtual one and none is an alias |
| `ControlFlow.GetNextInsts` | svf-llvm/lib/LLVMUtil.cpp:577-600 | the recursion appends the next instructions with intrinsics skipped |
| `ControlFlow.ErasedWalkIsWalk` | svf-llvm/lib/LLVMUtil.cpp:577-600 | erasing the intrinsics of any control-flow walk leaves a walk along next instructions |
| `ControlFlow.WalkBehindErasedWalk` | svf-llvm/lib/LLVMUtil.cpp:577-600 | every walk along next instructions comes from a control-flow walk |
| `ICFGBuilder.EverythingIsVisited` | svf-llvm/lib/ICFGBuilder.cpp:103-209 | a set closed under next instructions that holds the entry and the unreachable fronts holds every instruction but intrinsics |
| `ICFGBuilder.ICFGBuilder.AddBlockICFGNode` | svf-llvm/lib/ICFGBuilder.cpp:330-340 | the instruction, which has no node yet, gets its node or pair of nodes |
| `ICFGBuilder.ICFGBuilder.AddInterBlockICFGNode` | svf-llvm/lib/ICFGBuilder.cpp:239-300 | a call gets a call and a return node and the edges of its kind of callee |
| `ICFGBuilder.ICFGBuilder.ProcessFunEntry` | svf-llvm/lib/ICFGBuilder.cpp:103-123 | the first instruction that is no intrinsic is visited and linked to the entry |
| `ICFGBuilder.ICFGBuilder.ProcessUnreachableFromEntry` | svf-llvm/lib/ICFGBuilder.cpp:129-143 | the front of every unreachable block is visited and nothing else |
| `ICFGBuilder.ICFGBuilder.ProcessInst` | svf-llvm/lib/ICFGBuilder.cpp:153-207 | exactly the edges leaving an instruction, or its return node, are added and new next instructions queued |
| `ICFGBuilder.ICFGBuilder.ProcessFunBody` | svf-llvm/lib/ICFGBuilder.cpp:148-209 | terminates with every visited instruction finished |
| `ICFGBuilder.ICFGBuilder.ProcessFunExit` | svf-llvm/lib/ICFGBuilder.cpp:216-230 | adds nothing new |
| `ICFGBuilder.ICFGBuilder.BuildFunction` | svf-llvm/lib/ICFGBuilder.cpp:66-84 | the finished graph has the nodes and edges of exactly the instructions to be visited |
| `ICFGBuilder.NodesAreInstructions` | svf-llvm/lib/ICFGBuilder.cpp:330-351 | each instruction has its node, or pair for calls, and intrinsics have none if and only if no unreachable block starts with one |
| `ICFGBuilder.EdgesAreNext` | svf-llvm/lib/ICFGBuilder.cpp:165-206 | an edge leads from n, or its return node, to m if and only if m is a next instruction of n |
| `ICFGBuilder.CallsAreLinked` | svf-llvm/lib/ICFGBuilder.cpp:275-306 | a call is linked through a callee exactly if it is direct and has a body, else straight to its return |
| `ICFGBuilder.WalksCorrespond` | svf-llvm/lib/ICFGBuilder.cpp:148-209 | the walks of the graph are exactly the control-flow walks with intrinsics erased |

## Left out

- On-the-fly call graph growth: the solver's graph is fixed, as in the base class; new edges at an indirect call are not part of this model.
- Must-alias stores: the base predicate is always false, so its branch is not modelled.
- Context-sensitive queries and the backward calling-context condition: the condition is always true, as in the base class.
- Field-insensitive side effects: `processGepPts` can mark an object field-insensitive while a query runs; here the marks are fixed before.
- Per-query budget counters, statistics, timing and printing: the budget is a step count, the rest is not modelled.
- DDAVFSolver.FlowDDA.ComputeDDAPts: exactness after a query ran out of budget is relative to the set forced onto its item, which the source keeps from the pre-analysis.
- DDAVFSolver.FlowDDA.AnswerQueries: with one set per variable, that the queries are in order is sufficient and not necessary. Which other orders give right answers depends on the order of the edges at every node and is not characterised; which completed caches are then wrong is.
- PerVariableCache.AnswerDependsOnOrder: speaks of the solver's recursion written out as a function for address, copy and gep nodes, because the contract of a method does not say which of the states it allows is reached. That function is not proved to be what `FindPT` computes.
- PerVariableCache.AcyclicIsNotEnough: the same.
- FirstQuery.FirstAnswerIsTooSmall: the same.
- LLVM itself: `getAsInstruction`, demangling, dominator trees and bitcode loading are parameters or absent.
- Debug information and names given to converted instructions: they do not affect a run.
- ObjTypeInference.AllocInference.BwFindAllocOfVar: later queries are sound but can miss sources, because a value recorded while a neighbour was pending lacks that neighbour's; asking for a phi of an allocation and of a cast of it, in that order of operands, leaves the cast's entry empty.
- ObjTypeInference.TypeInference.FwInferObjType: the same holds for later type queries.
- `bwFindAllocOrClsNameSources`: the same walk over other local sources and neighbours; `CallStackWalk` covers it, and it has no class of its own.
- Class-name parsing and memcpy heuristics of the inference: no clean specification.
- The map from field index to original type in `StInfo`: a lookup for printing and checking.
- SVFIRBuilder.Builder.InitialGlobal: current value and block, which only label edges, are not recorded, and the edges of a constant expression itself are one marker.
- Nested constant expressions, aliases and external symbols as initialisers: their node numbers are given.
- DebugTypes.TeqIsSameKey: inheritance and friend tags, on which stripping qualifiers asserts, cannot occur.
- `DCHGraph::flatten` and `gatherAggs`: they read by a key that is not canonical.
- Cyclic hierarchies: `cha` does not terminate on them.
- `buildClassNameToAncestorsDescendantsMap`: a plain worklist closure that would add easy members.
- Inheritance edges added while a vtable is split, and class nodes created for them.
- Names of virtual functions are numbers in the order of the demangled strings.
- Labels of conditional edges in the control flow graph: only which edges exist is modelled.
- The global node in front of the program entry, and edges through function pointers found later.
- A terminator that calls an intrinsic (an invoke of `donothing`): blocks end with another instruction.
- CFL and POCR solvers, tool drivers, abstract execution and the Python extractors.
