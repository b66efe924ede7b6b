# Verified model of the bytecode back end and the type engine

This project models how the runtime prepares bytecode for execution and how its type engine
represents types, and proves what the rest of the runtime relies on.

* **Moves and foreign calls.** `MoveResolver` turns a set of simultaneous assignments into a sequence
  of single moves; the foreign-call stager feeds it from the C ABI allocator and the struct classifier.
  Files: `Machine`, `Emitter`, `Permutations`, `Shuffle`, `MoveResolver`, `Resolve`, `StructAbi`, `Abi`,
  `Demands`, `Staging`, `Delivery`, `CallDelivery`, `ParamArea`, `ForeignCall`, `StructBytes`,
  `ArgPlaces`, `IsaRewriter`. Resolution is proved on an abstract machine of registers, frame slots,
  parameter slots and read-only memory; the emitted instructions are proved to refine it on a processor with
  byte memory, and the whole staged call is proved on that processor, byte by byte.
* **Terms.** `Terms`, `Substitution`, `Matching`, `Interning`, `InterningRuns`: structural equality with
  the hash shortcut, substitution with its shortcut for closed terms, one-way matching, and canonical
  interning, both for one caller on a mutable heap of terms and for any interleaving of threads.
* **Method tables.** `MethodTable`, `MethodConflicts`, `ConflictResolver`, `MethodTableSteps`,
  `MethodTableLedger`, `MethodTableOwn`, `MethodTableBuilder`: one flat array viewed by sub-tables, built
  by inheritance, merging, overriding and conflict resolution.
* **Layouts.** `Alignment`, `Layout`, `LayoutRefs`, `LayoutLeaves`, `CopyRanges`, `Statics`, `FrameLayout`:
  sizes, alignments, offsets, reference maps, static-field blocks and method frames.
* **Codec and small structures.** `Leb` (section 7.6 of DWARF Version 5), `OffsetsIndex`, `Arena`.

`dafny verify dfyconfig.toml` checks everything.

## How the model reads the source

* Classes whose methods update fields are classes with the same fields; loops are loops. Each such
  method is tied to a specification function or predicate, and the lemmas are about that.
* Where the source calls code outside it, the answer is a parameter: the address that `malloc` returns,
  the layout of a struct parameter, the definitions behind method identifiers, the method tables of
  superclasses and interfaces, the representation of an option.
* Pointer shortcuts in comparisons of immutable terms are nondeterministic choices (`*`): the result is
  proved in both outcomes. Unordered containers are visited in an arbitrary order.
* `std::sort` is an insertion sort, and `result |= bits << shift` in the LEB128 decoders is an addition
  modulo 2^64: the shifted bits lie above those of the result.
* `HasOverride` stays a free premise of conflict resolution, as the start index of the current class is
  a parameter there. `BuildTable` passes the end of the array, so overriding inside it is done by
  `AddMethod` alone.

## Results that need a condition

* Parameter offsets are encoded in 16 bits: `MoveEmission.ParamOffsetExact` says for which slots that is
  exact. The call theorems ask for a parameter area of at most 65536 bytes, and
  `ParamAreas.CallOffsetsExact` shows that a call whose area is greater always writes some slot at a wrong
  offset.
* A struct passed in registers keeps all bytes that matter exactly under the condition of
  `StructBytes.PlanCarries`; `StructAbi.LostBytes` is a struct of three bytes that does not.
* Matching is exact for targets that share no class variable with the pattern and have no NIL inside.
  `Matching.SharedVariable` and `Matching.NilTarget` are targets where it is not, and
  `Matching.ShortcutExact` says when the pointer shortcut is right.
* The sub-tables of a method table partition its array unless an extension method that overrides nothing is
  appended: such an entry is viewed by no sub-table. `MethodTableBuilding.PartsWhole` is the exact condition,
  in terms of the tables that go in.
* An own method keeps its reference unless conflict resolution settles its group on another, unviewed
  entry: `OwnedMethods.OwnKeeps`. `OwnedMethods.OwnMethodLost` is a hierarchy where a concrete method is lost.
* The comment in `src/cbc/move_resolver.cpp:128-130` speaks of a separate float graph that is resolved
  first; the code has one graph for both kinds, and that is what is modelled.

## Model

| member | source | states |
|---|---|---|
| `Resolution.MoveResolver.Resolve` | src/cbc/move_resolver.cpp:91-317 | fails exactly when a collected move mixes register kinds; otherwise executing the emitted operations from any state gives every destination the value (or loaded value) its source had at the start, changes no other register but the temporaries, and costs one operation per assignment plus one per set of cycles, at most n/2 of those |
| `Resolution.ResolvedMeaning` | src/cbc/move_resolver.cpp:91-317 | slots first, register shuffle second, loads from frame slots last: together one simultaneous assignment, from every start state |
| `Resolution.PhasesHold` | src/cbc/move_resolver.cpp:179-194 | the value of each single assignment survives the other two phases |
| `Resolution.GraphMeaning` | src/cbc/move_resolver.cpp:157-177 | the node array represents the register assignments of the list and nothing else |
| `Resolution.OnePerAssignment` | src/cbc/move_resolver.cpp:162-205 | every collected assignment is served by exactly one of the three phases |
| `Resolution.ResolvedFrom` | src/cbc/move_resolver.cpp:162-315 | no operation touches a slot or performs a load that is not in the list |
| `Resolution.MoveResolver.AddMove` | src/cbc/move_resolver.cpp:14-22 | a register moved to itself is dropped, anything else is recorded once |
| `Resolution.MoveResolver.AddLoadFromAddr` | src/cbc/move_resolver.cpp:24-29 | records the load |
| `Resolution.MoveResolver.BuildGraph` | src/cbc/move_resolver.cpp:157-205 | succeeds exactly on unmixed lists, with the graph and the slot operations of the whole list |
| `Resolution.MoveResolver.LoadSlots` | src/cbc/move_resolver.cpp:302-315 | emits exactly the loads of registers from frame slots |
| `Demands.DemandsMet` | src/cbc/move_resolver.cpp:14-29 | performing the collected moves meets every demand, the dropped self-moves included |
| `MoveResolution.CycleResolver` | src/cbc/move_resolver.cpp:207-284 | terminates with every node done; the shuffle is correct from every state and its cost is exact |
| `MoveResolution.ChainPass` | src/cbc/move_resolver.cpp:223-248 | one pass assigns only registers that no unfinished node reads; without a change, all unfinished ones are needed |
| `MoveResolution.Round` | src/cbc/move_resolver.cpp:222-278 | each iteration keeps the simulation and decreases the termination measure |
| `MoveResolution.BreakCycle` | src/cbc/move_resolver.cpp:252-277 | parks one node in the temporary of its kind and redirects it; answers false only when all nodes are done |
| `MoveResolution.IsNeeded` | src/cbc/move_resolver.cpp:232-243 | whether some other unfinished node reads the register |
| `MoveResolution.CostBound` | src/cbc/move_resolver.cpp:153-154 | at most n + n/2 operations for n unfinished registers |
| `Shuffle.NoProgressIsCycles` | src/cbc/move_resolver.cpp:249-268 | when a pass makes no progress the unfinished registers are permuted by their sources, without fixed points, within one kind, and no float load is among them |
| `Shuffle.CycleIsNeeded` | src/cbc/move_resolver.cpp:224-243 | a register on a cycle is never assigned by the chain pass |
| `Shuffle.AssignStep` | src/cbc/move_resolver.cpp:244-247 | assigning a register that nobody needs keeps every pending value available |
| `Shuffle.BreakStep` | src/cbc/move_resolver.cpp:269-277 | parking a node in a temporary keeps every pending value available |
| `Permutations.CoveredIsPermuted` | src/cbc/move_resolver.cpp:267-268 | pigeonhole: a finite set each of whose elements is an image is permuted |
| `Permutations.CyclesAreFew` | src/cbc/move_resolver.cpp:267-277 | disjoint cycles without fixed points use at least two registers each |
| `MoveEmission.LowerRefines` | src/cbc/isa_rewriter.cpp:151-220 | the instructions emitted for one operation act on registers, accumulator and frame memory as the operation acts on the abstract machine |
| `MoveEmission.LowerAllRefines` | src/cbc/isa_rewriter.cpp:151-220 | the same for whole sequences, given that loads do not read the outgoing parameter area |
| `MoveEmission.ParamOffsetExact` | src/cbc/isa_rewriter.cpp:164-202 | the 16-bit parameter offset is the intended one exactly for slots below 8192 |
| `MoveEmission.ShortExactly` | src/cbc/isa_rewriter.cpp:165-169 | the short form of a slot copy is taken exactly when its operand holds the offset |
| `MoveEmission.RewriterMoveEmitter.AssignParamSlot` | src/cbc/isa_rewriter.cpp:161-170 | emits the slot copy in its short or long form |
| `MoveEmission.RewriterMoveEmitter.AssignSlotFromAddr` | src/cbc/isa_rewriter.cpp:198-203 | emits the load through the accumulator and the store |
| `MoveEmission.RewriterMoveEmitter.AddrReg` | src/cbc/isa_rewriter.cpp:205-214 | the register that will hold the address, loaded from the frame when it lives there |
| `StructAbi.ClassifySysV` | src/cbc/c_abi.cpp:26-55 | empty, stack above 16 bytes, otherwise eight-byte chunks that are float exactly when every field in them is |
| `StructAbi.CheckHfa` | src/cbc/c_abi.cpp:64-72 | one to four float fields of one size |
| `StructAbi.ClassifyAAPCS64` | src/cbc/c_abi.cpp:57-94 | homogeneous float aggregates by element, big structs by reference, others in integer chunks |
| `StructAbi.ClassifyCAbiStruct` | src/cbc/c_abi.cpp:96-126 | for an argument the plan of the C ABI, or the stack when its registers are not all free or not allowed; for a result the plan itself, given that its registers suffice |
| `StructAbi.ResultsFit` | src/cbc/c_abi.cpp:111-115 | what the classifier asserts of results always holds: the result registers of both platforms suffice for every struct that comes back in registers |
| `StructAbi.ClassifyCAbiStructRet` | src/cbc/c_abi.cpp:128-133 | the plan of the C ABI, within the result registers |
| `StructAbi.ChosenUnique` | src/cbc/c_abi.cpp:96-126 | the classification is determined |
| `StructAbi.ChosenMeaning` | src/cbc/c_abi.cpp:105-124 | a plan in registers always finds them free; which plans arise exactly when |
| `StructAbi.RegistersUsed` | src/cbc/c_abi.cpp:105-124 | what the C ABI passes in registers goes there exactly when they are free and allowed, and on the stack otherwise |
| `StructAbi.ChunkIsFloatIff` | src/cbc/c_abi.cpp:34-52 | a chunk goes in a float register exactly when every field with a byte in it is a float |
| `StructAbi.ChunksCarryAll` | src/cbc/c_abi.cpp:12-24 | a chunked struct travels whole exactly when its last chunk has 1, 2, 4 or 8 bytes, or is a float chunk of 3 |
| `StructAbi.PieceBytes` | src/cbc/c_abi.cpp:12-24 | the register loaded for a piece holds exactly the bytes that the piece carries |
| `StructAbi.LostBytes` | src/cbc/c_abi.cpp:18-23 | a struct of three bytes is planned for one register and loses its last two bytes |
| `StructBytes.HfaCarriesAll` | src/cbc/c_abi.cpp:74-83 | every byte of every field of a homogeneous float aggregate is carried by the piece of the field |
| `StructBytes.PlanCarries` | src/cbc/c_abi.cpp:12-94 | a plan in registers carries all bytes that matter exactly for homogeneous aggregates and for structs whose last chunk is loaded whole |
| `Abi.NextFresh` | src/cbc/abi.cpp:7-16 | each location is handed out once and suits its kind: registers while there are any, then slots |
| `Abi.NextVarArgFresh` | src/cbc/abi.cpp:18-24 | variadic arguments get fresh locations: slots where the platform says so, otherwise as all others |
| `Abi.AbiAssigner.Consume` | src/cbc/abi.cpp:7-16 | advances exactly one counter |
| `Abi.AbiAssigner.ConsumeVarArg` | src/cbc/abi.cpp:18-24 | the next slot where the platform says so, otherwise as any argument |
| `Abi.AbiAssigner.ConsumeSret` | src/cbc/abi.cpp:26-32 | the dedicated register of the platform, and then nothing is consumed; otherwise the next integer register, or the next slot when there is none |
| `Abi.SretPlaced` | src/cbc/abi.cpp:26-32 | a dedicated register is no argument register and leaves the integer arguments their places; otherwise they move up by one |
| `Abi.AreaFresh` | src/cbc/abi.h:61-66 | an area of stack slots is fresh as a whole |
| `Abi.AbiAssigner.ConsumeStackArea` | src/cbc/abi.h:61-66 | the area starts at the slot counter |
| `Abi.PlatformsValid` | src/cbc/platforms.h:16-74 | on both platforms the resolver temporaries are no argument registers, and the address of the result goes to IR1 or to the dedicated IR9 |
| `Staging.StageCallOk` | src/cbc/isa_rewriter.cpp:534-643 | for every signature and argument list, all destinations handed out are pairwise distinct and allocator-owned |
| `Staging.PiecesInRegs` | src/cbc/isa_rewriter.cpp:683-692 | a struct planned for registers gets a register of the right kind for each piece |
| `Staging.AllDemandsOk` | src/cbc/isa_rewriter.cpp:599-611 | destinations, copy areas and copy pointers are distinct, avoid the temporaries and lie below the accounted area |
| `Staging.ParamsDemanded` | src/cbc/isa_rewriter.cpp:567-588 | what is staged for one parameter is still there after all others |
| `Demands.DemandsLowerable` | src/cbc/isa_rewriter.cpp:151-220 | every resolved operation of a staged call has an exact encoding |
| `Delivery.DemandsDelivered` | src/cbc/isa_rewriter.cpp:613-617 | the code of the resolved moves puts every demanded value in place |
| `Delivery.PointersHold` | src/cbc/isa_rewriter.cpp:620-628 | each copy pointer holds its address and disturbs no argument |
| `CallDelivery.CallRuns` | src/cbc/isa_rewriter.cpp:613-639 | moves, then pointers, then the accumulator: all demands hold at the end, from every processor state |
| `ForeignCall.DemandedDelivered` | src/cbc/isa_rewriter.cpp:567-611 | scalars by value, struct pieces by register, struct bytes by area, by-reference structs by pointer and copy |
| `ForeignCall.CallDelivers` | src/cbc/isa_rewriter.cpp:534-643 | end to end: after the emitted code every argument is where the ABI puts it and the result address is passed or in the accumulator |
| `StructBytes.RegisterBytes` | src/cbc/isa_rewriter.cpp:683-692 | each register of a delivered struct holds exactly the bytes its piece carries, and zeros above them |
| `StructBytes.CallStructBytes` | src/cbc/isa_rewriter.cpp:534-643 | end to end: after the emitted code every byte that matters of a struct passed in registers is in one of them, as it was in memory |
| `ParamAreas.CallFills` | src/cbc/isa_rewriter.cpp:564-593 | no slot below the slot counter is left unused, and no by-reference copy is empty |
| `ParamAreas.CallOffsetsExact` | src/cbc/isa_rewriter.cpp:595-639 | all parameter slots a call writes are encoded exactly if and only if its area has at most 65536 bytes; then the offsets of the copies are exact too |
| `ArgPlaces.CountersByNeed` | src/cbc/isa_rewriter.cpp:564-588 | before each parameter the allocator stands where counting the integers, floats and stack words of the parameters before it says |
| `ArgPlaces.CallPlaced` | src/cbc/isa_rewriter.cpp:534-643 | end to end, by counting: each argument is in the register that its number among the arguments of its kind names, or in the next stack word; the hidden address of the result takes the first integer place on platforms without a register for it |
| `ArgPlaces.PiecePlace` | src/cbc/isa_rewriter.cpp:683-692 | the pieces of a struct continue the count, piece by piece |
| `ArgPlaces.ArgumentOf` | src/cbc/isa_rewriter.cpp:566-587 | a parameter takes the argument of its index, less the labels before it |
| `ArgPlaces.ResultPassing` | src/cbc/isa_rewriter.cpp:534-562 | the address of a result is passed for structs above 16 bytes that are no homogeneous float aggregates, and kept for those that come back in registers |
| `ForeignCall.MatchingCallResolves` | src/cbc/isa_rewriter.cpp:613-617 | arguments of the kinds of their parameters never make the resolver fail |
| `Rewriting.IsaRewriter.CheckArgCount` | src/cbc/isa_rewriter.cpp:384-412 | whether the argument count fits the signature of a static foreign call |
| `Rewriting.IsaRewriter.StageForeignStructArg` | src/cbc/isa_rewriter.cpp:667-710 | fails exactly without a layout; otherwise stages the struct as its plan says |
| `Rewriting.IsaRewriter.StageForeignArg` | src/cbc/isa_rewriter.cpp:569-587 | one parameter of the loop |
| `Rewriting.IsaRewriter.StageAllArgs` | src/cbc/isa_rewriter.cpp:564-588 | the whole parameter list, with the plan each struct got at its position |
| `Rewriting.IsaRewriter.StageCopies` | src/cbc/isa_rewriter.cpp:599-611 | by-reference copies above all stack arguments, word by word |
| `Rewriting.IsaRewriter.EmitPointers` | src/cbc/isa_rewriter.cpp:620-628 | the pointer code of all copies |
| `Rewriting.IsaRewriter.EmitAcc` | src/cbc/isa_rewriter.cpp:630-639 | the accumulator code |
| `Rewriting.IsaRewriter.StageForeignCallArgs` | src/cbc/isa_rewriter.cpp:534-643 | exactly when staging fails; otherwise the code delivers the call from every state and fits the parameter area |
| `Terms.EqualTerms` | src/engine/terms.cpp:245-273 | the hash shortcut never changes the answer: equality of terms is equality of structure |
| `Terms.InitAfterSubterms` | src/engine/terms.cpp:40-55 | hash and variable flag of a new term are exact |
| `Terms.NewTermWithId` | src/engine/terms.cpp:655-664 | a new term is local, a reference or a record as asked, and generic exactly when a subterm is |
| `Terms.TypeVarInside` | src/engine/terms.cpp:40-55 | the variable flag: a term of one of the two kinds of variables is inside |
| `Terms.PairHash` | src/engine/terms.cpp:40-55 | the hash mixes the hashes of the subterms in their order |
| `Substitutions.Substitution.Substitute` | src/engine/terms.cpp:1094-1130 | equals the naive full substitution, keeps flag and hash exact, restores the depth; every node it builds is local, all others are from the pattern or the replacements; an option is looked up anew and other flags are kept |
| `Substitutions.ClosedIsFixed` | src/engine/terms.cpp:1096-1098 | a term without variables is its own instance, so the shortcut is sound |
| `Substitutions.ClassSubstComposes` | src/engine/terms.cpp:1145-1150 | class substitutions compose |
| `Substitutions.SignatureBoxes` | src/engine/terms.cpp:1162-1175 | a signature is substituted as usual, with exactly one box around each bare-variable argument whose replacement is no reference |
| `Matching.TermMatcher.PutVariable` | src/engine/terms.cpp:1188-1202 | binds an unbound variable, accepts an equal binding, reports another |
| `Matching.TermMatcher.IsPrefix` | src/engine/terms.cpp:1204-1214 | on a target without NIL that shares no class variable with the pattern: yes without an error exactly for extensions of the bindings, in either outcome of the pointer shortcut |
| `Matching.TermMatcher.Matches` | src/engine/terms.cpp:1204-1222 | on such a target: yes exactly when some substitution turns the pattern into it, and then the bindings do |
| `Matching.AgreesIsSubst` | src/engine/terms.cpp:1204-1212 | bindings agree on pattern and target exactly when substituting them gives the target |
| `Matching.ShortcutExact` | src/engine/terms.cpp:245-273 | accepting a term compared with itself without binding anything is right exactly when each of its class variables is bound to itself already |
| `Matching.SharedVariable` | src/engine/terms.cpp:245-273 | a variable compared with itself: the shortcut accepts it and leaves it unbound |
| `Matching.NilTarget` | src/engine/terms.cpp:1188-1202 | a variable bound to NIL counts as unbound, so a pattern with a variable twice accepts NIL and another term |
| `Interning.TermManager.Comparator` | src/engine/terms.cpp:673-697 | shallow comparison by pointer decides equality of structure |
| `Interning.TermManager.Find` | src/engine/terms.cpp:521-527 | finds the cached term of the structure exactly when there is one |
| `Interning.TermManager.LookupOrInsert` | src/engine/terms.cpp:521-546 | the locked section: a cached term of the same structure, every term before it unchanged |
| `Interning.TermManager.Globalize` | src/engine/terms.cpp:511-547 | a global term of the same structure; global subterms never change, canonicity is kept |
| `Interning.TermManager.Canonical` | src/engine/terms.cpp:507-509 | global terms are pointer-equal exactly when structurally equal |
| `Interning.TermManager.CachedSubterms` | src/engine/terms.cpp:517-519 | every cached term has only cached or builtin subterms |
| `InterningRuns.Canonical` | src/engine/terms.cpp:521-546 | in a cache filled by lookup-or-insert steps, different terms have different structures |
| `InterningRuns.NextOk` | src/engine/terms.cpp:511-547 | each step of any thread keeps the cache canonical and all finished subterms right |
| `InterningRuns.NextWorks` | src/engine/terms.cpp:511-547 | every step of a running thread is one step less to go |
| `InterningRuns.GlobalizeFinishes` | src/engine/terms.cpp:511-547 | a thread that had as many turns as its input takes is finished, whatever the others do |
| `InterningRuns.InterleavedGlobalize` | src/engine/terms.cpp:511-547 | under every interleaving, finished threads hold the same global term exactly when their inputs have the same structure |
| `MethodTables.RefOfMeaning` | src/engine/method_table.cpp:85-88 | a reference has the name of the method, its kind of signature, and every argument substituted by the context of the entry, boxed exactly when it is a bare variable whose replacement is no reference |
| `MethodTables.SameRef` | src/engine/method_table.cpp:306-312 | entries answer to one reference exactly when they declare the same method: one name, the same arguments in their contexts |
| `MethodTables.ResolveAll` | src/engine/method_table.cpp:110-127 | all matching entries, sub-table by sub-table |
| `MethodTables.AllInOrder` | src/engine/method_table.cpp:110-127 | in the order of the sub-tables and of the methods inside them |
| `MethodTables.TableNumbers` | src/engine/method_table.cpp:91-108 | classes before interfaces |
| `MethodTables.Resolve` | src/engine/method_table.cpp:91-108 | the first element of what ResolveAll finds |
| `MethodTables.FoundMeaning` | src/engine/method_table.cpp:167-183 | exactly the matching viewed positions; the flat number is the start of the sub-table plus the method number |
| `MethodTableSteps.SlotsStable` | src/engine/method_table.cpp:430-498 | along every chain of subclasses a class slot keeps its bounds and its reference |
| `MethodTableSteps.MergedSlots` | src/engine/method_table.cpp:237-251 | an interface keeps its slots inside the merged table, shifted |
| `MethodTableSteps.MergedPartitioned` | src/engine/method_table.cpp:237-251 | the merged sub-tables are a partition of the array exactly when those of both tables are |
| `MethodTableSteps.AddedOverrides` | src/engine/method_table.cpp:299-327 | an added method replaces exactly the viewed entries that declare the same method in their contexts, leaves overloads alone, and is appended when there is none |
| `MethodTableSteps.AddedPartitioned` | src/engine/method_table.cpp:299-327 | after adding a method the sub-tables are a partition exactly when they were one and the method replaced an entry |
| `MethodTableSteps.OwnTablePartitions` | src/engine/method_table.cpp:484-491 | the sub-table of the type covers what was appended: all is a partition exactly when what was before is |
| `MethodTableSteps.AddedOwns` | src/engine/method_table.cpp:299-327 | an added method takes over its reference wherever a sub-table views it, the coming one of the type included |
| `OwnedMethods.OwnerResolves` | src/engine/method_table.cpp:91-127 | a method resolves to itself, in every sub-table, exactly when it owns its reference |
| `OwnedMethods.OwnKeeps` | src/engine/method_table.cpp:379-391 | through conflict resolution an own method keeps its reference exactly when its group is not settled on a different entry that no sub-table views |
| `OwnedMethods.OwnLosesToOnlyConcrete` | src/engine/method_table.cpp:379-391 | below a whole superclass table that takes an abstract method and an unviewed entry that is the only concrete one; a concrete own method always keeps its reference |
| `OwnedMethods.OwnMethodLost` | src/engine/method_table.cpp:379-391 | two classes and an extension where a concrete own method is lost to an inherited entry, without a conflict |
| `MethodTableLedgers.MergedMatches` | src/engine/method_table.cpp:237-251 | a merged table offers for overriding what the two tables offer |
| `MethodTableLedgers.AddedMatches` | src/engine/method_table.cpp:299-327 | adding a method leaves what is offered for overriding as it is |
| `MethodConflicts.ResolvedByPosition` | src/engine/method_table.cpp:362-391 | every entry of a reference becomes the last one of the current class, else the last inherited concrete one, else the only concrete one, and stays otherwise |
| `MethodConflicts.ClashByPosition` | src/engine/method_table.cpp:409-424 | a conflict is two concrete entries of one reference that are of different methods, where the class has none of its own and inherits no concrete one |
| `MethodConflicts.ResolvedKeepsRefs` | src/engine/method_table.cpp:386-391 | conflict resolution changes no reference |
| `MethodConflicts.ResolvedAgrees` | src/engine/method_table.cpp:393-424 | without a conflict, concrete entries of one reference name one method |
| `MethodConflicts.SettledIsUniform` | src/engine/method_table.cpp:379-391 | a group with an override, an inherited concrete entry or exactly one concrete entry becomes identical throughout |
| `ConflictResolution.ConflictResolver.Scan` | src/engine/method_table.cpp:362-377 | the last override, the last inherited concrete and the last concrete entry, and whether there is exactly one |
| `ConflictResolution.ConflictResolver.SettleGroup` | src/engine/method_table.cpp:350-424 | settles one group, or reports a clash exactly when there is one |
| `ConflictResolution.ConflictResolver.VerifyAndResolveConflicts` | src/engine/method_table.cpp:329-427 | reports a conflict exactly when some group clashes; every other group is settled, whatever the order of groups |
| `MethodTableBuilding.MethodTableBuilder.AddInterface` | src/engine/method_table.cpp:224-254 | merges the table of an interface once, and fails exactly when a new interface has none |
| `MethodTableBuilding.MethodTableBuilder.AddInterfaces` | src/engine/method_table.cpp:457-463 | every interface ends up inside the table, and no slot changes; what can be overridden and whether the sub-tables are a partition follow from the merged tables |
| `MethodTableBuilding.MethodTableBuilder.AddMethods` | src/engine/method_table.cpp:477-480 | every method is answered for; those that replace nothing are appended in their order; with distinct references each owns its own; the sub-tables stay a partition exactly when every method replaced an entry |
| `MethodTableSteps.KeepsEmbeds` | src/engine/method_table.cpp:224-254 | an interface table once inside stays inside, with its slots and references |
| `MethodTableBuilding.MethodTableBuilder.AddMethod` | src/engine/method_table.cpp:299-327 | replaces all viewed entries of the reference, that is those that declare the same method by name and arguments in context, or appends when there are none |
| `MethodTableBuilding.MethodTableBuilder.AddExtensions` | src/engine/method_table.cpp:256-297 | extensions keep every slot, their interfaces end up inside and their methods are answered for; the sub-tables stay a partition exactly when the merged tables are whole and every extension method replaced an entry |
| `MethodTableBuilding.BuildTable` | src/engine/method_table.cpp:430-498 | the superclass table is kept slot by slot, every interface table is inside, every method is answered for, and every entry has a source; a conflict is the only failure when everything is available; the sub-table of the type lists, in order, the methods that neither the superclass nor an interface offers; the sub-tables partition the array exactly when the superclass table and the merged interface tables are partitioned and every extension method replaces an entry of those; own methods of distinct references resolve to themselves exactly when their group is not settled on a different, unviewed entry, and always when the table is whole, or when they are concrete and the superclass table is whole |
| `MethodTableBuilding.PlainPartsWhole` | src/engine/method_table.cpp:256-297 | in hierarchies without extension methods that condition is met as soon as all tables are whole |
| `Alignment.AlignUpMeaning` | src/utils/math.h:9-11 | the least multiple of the alignment that is not below the value |
| `Layouts.SizeIsAligned` | src/engine/field_layout.cpp:72-206 | every known size is a multiple of its alignment |
| `Layouts.FieldsPlaced` | src/engine/field_layout.cpp:297-328 | fields are in order, disjoint, at aligned offsets and inside the size |
| `LayoutLeaves.LeafAligned` | src/engine/field_layout.cpp:72-206 | whatever it is nested in outside packed tuples and unions, a primitive of w bytes is at a multiple of w and a reference at a multiple of eight |
| `LayoutLeaves.LeafInside` | src/engine/field_layout.cpp:72-206 | every primitive and reference lies inside the value |
| `LayoutLeaves.ClassLeaf` | src/engine/field_layout.cpp:506-559 | the same for the fields of objects, inherited ones included |
| `LayoutLeaves.LoneScalar` | src/engine/field_layout.cpp:72-206 | a scalar alone in a tuple or in the elements of an array takes its own bytes and alignment only |
| `LayoutLeaves.ElementsContiguous` | src/engine/field_layout.cpp:196-206 | the elements of an array follow each other without a gap |
| `Layouts.AlignmentAttained` | src/engine/field_layout.cpp:310-328 | a known alignment is one that some field asks for, or 1 |
| `Layouts.KidsAre` | src/engine/field_layout.cpp:349-403 | the fields of a type; an option has one, its payload |
| `Layouts.PackedTight` | src/engine/field_layout.cpp:391-415 | a packed tuple has no padding |
| `Layouts.UnionMeaning` | src/engine/field_layout.cpp:416-438 | a union is as big as its biggest member, packed, and without a size when a member has none |
| `Layouts.ClassTight` | src/engine/field_layout.cpp:506-559 | objects begin with their first field; no field starts and no class ends later than alignment needs |
| `Layouts.PresentPlaced` | src/engine/field_layout.cpp:310-328 | in a type of unknown size too, fields are ordered, disjoint and aligned as far as their offsets are present |
| `Layouts.FieldsAligned` | src/engine/field_layout.cpp:310-328 | placed at its own alignment, a type has all its fields aligned |
| `Layouts.NoWaste` | src/engine/field_layout.cpp:297-328 | no more padding than alignment needs, between fields and at the end |
| `Layouts.UnknownField` | src/engine/field_layout.cpp:322-326 | a field of unknown size leaves the type without a size and at the greatest alignment |
| `Layouts.OffsetPresent` | src/engine/field_layout.cpp:310-325 | an offset is present exactly when all earlier fields have a known size |
| `Layouts.OffsetsStable` | src/engine/field_layout.cpp:310-328 | a later field never moves an earlier one |
| `Layouts.ClassLayoutOk` | src/engine/field_layout.cpp:506-559 | in every class an offset is present exactly when all fields before it, inherited ones included, have a known size, and the size exactly when all have; whatever has an offset is aligned and behind all fields before it; the size covers all fields and is a multiple of the alignment, which is at least that of every field; a subclass keeps every inherited offset |
| `Layouts.ClassFieldsAligned` | src/engine/field_layout.cpp:506-559 | an object at a multiple of the alignment of its class has every field aligned |
| `Layouts.ClassOffsetsStable` | src/engine/field_layout.cpp:506-559 | offsets of a class, inherited ones included, do not depend on later fields |
| `Layouts.SizeAlignmentAccumulator.Add` | src/engine/field_layout.cpp:310-328 | one step of the accumulator |
| `Layouts.BuildLayout` | src/engine/field_layout.cpp:349-389 | the loop over the fields computes the recursive layout |
| `Layouts.BuildLayoutCbc` | src/engine/field_layout.cpp:506-530 | the superclass layout continued with the own fields |
| `LayoutRefs.FillRefOffsets` | src/engine/field_layout.cpp:208-270 | appends the offsets of the reference map |
| `LayoutRefs.RefsExact` | src/engine/field_layout.cpp:208-270 | an offset is collected exactly when the value has a reference there |
| `LayoutRefs.RefsSpaced` | src/engine/field_layout.cpp:208-270 | the offsets strictly increase, at least a reference apart, within the size |
| `LayoutRefs.RefsShift` | src/engine/field_layout.cpp:208-270 | moving the value moves its reference map |
| `CopyRanges.CopyDerivedByRanges` | src/interpreter/interpreter.h:642-664 | the calls tile the value from left to right, with one reference call per collected offset |
| `CopyRanges.EachByteOnce` | src/interpreter/interpreter.h:642-664 | every byte is copied by exactly one call |
| `CopyRanges.ReferencesThroughCallback` | src/interpreter/interpreter.h:642-664 | a byte moves through the reference callback exactly when it belongs to a reference |
| `Statics.CreateBundle` | src/engine/statics_manager.cpp:107-189 | regions, record offsets and reference offsets of the static fields |
| `Statics.LocateField` | src/engine/statics_manager.cpp:52-90 | the rank found by the scan is the place laid out at creation |
| `Statics.StaticsDisjoint` | src/engine/statics_manager.cpp:140-165 | static fields lie inside the block and never overlap, each with as many bytes as its type has |
| `Statics.StaticsAligned` | src/engine/statics_manager.cpp:140-165 | every static field is at a multiple of eight |
| `Statics.BlockTight` | src/engine/statics_manager.cpp:140-165 | the block has no more bytes than its fields, each rounded up to a slot |
| `Statics.VisitBundle` | src/engine/statics_manager.cpp:92-105 | visits the direct references, then those in records |
| `Statics.VisitedOnce` | src/engine/statics_manager.cpp:92-105 | no location is visited twice |
| `Statics.VisitsAllReferences` | src/engine/statics_manager.cpp:92-105 | a location is visited exactly when some static field has a reference there |
| `Statics.AllStaticsDisjoint` | src/engine/statics_manager.cpp:192-204 | over any history of queries, no two static fields of any two types overlap |
| `Statics.StaticsManager.VisitRefLocations` | src/engine/statics_manager.cpp:206-215 | every bundle is visited once, in any order |
| `Statics.StaticsManager.GetLocation` | src/engine/statics_manager.cpp:192-204 | a type keeps its bundle, so a location never changes |
| `FrameLayouts.MakeFrameLayout` | src/cbc/isa_rewriter.cpp:2283-2334 | fails exactly for a slot that is no record of known size; otherwise the offsets of all slots and references |
| `FrameLayouts.FrameDisjoint` | src/cbc/isa_rewriter.cpp:891-896 | untyped slots, typed slots, saved registers and parameters are pairwise disjoint inside the full frame |
| `FrameLayouts.FullFrame` | src/cbc/isa_rewriter.cpp:2485-2486 | the full frame is the least multiple of 16 with room for frame and parameters, which start at its bottom |
| `FrameLayouts.UntypedSlotsFit` | src/cbc/isa_rewriter.cpp:891-896 | every untyped slot of the frame is one that moves and calls can read |
| `FrameLayouts.RefsInSlots` | src/cbc/isa_rewriter.cpp:2324-2327 | every recorded reference lies inside its typed slot |
| `FrameLayouts.RefsRecorded` | src/cbc/isa_rewriter.cpp:2324-2327 | a location is recorded exactly when some typed slot has a reference there |
| `FrameLayouts.CountSaved` | src/cbc/isa_rewriter.cpp:2287-2295 | the number of registers that the mask names |
| `LebEncodings.EncodeULEB` | src/utils/lebencodings.cpp:77-93 | writes the encoding, or as much of it as fits, and nothing else |
| `LebEncodings.EncodeSLEB` | src/utils/lebencodings.cpp:58-75 | the same for signed values |
| `LebEncodings.DecodeULEB` | src/utils/lebencodings.cpp:6-28 | the digits of the first number modulo 2^64, and the cursor behind it |
| `LebEncodings.DecodeSLEB` | src/utils/lebencodings.cpp:30-56 | the same with sign extension |
| `LebEncodings.UnsignedRoundTrip` | src/utils/lebencodings.cpp:6-93 | every unsigned 64-bit value survives, in at most ten bytes, whatever follows |
| `LebEncodings.SignedRoundTrip` | src/utils/lebencodings.cpp:30-75 | every signed 64-bit value survives, in at most ten bytes, whatever follows |
| `Machine.SignedLoads` | src/interpreter/internal/operations.h:837-841 | signed loads keep the bits they read and extend the sign |
| `LebEncodings.ArgListBytes` | src/cbc/isa_parser.h:200-209 | a list element is its location plus one, and a zero ends the list |
| `LebEncodings.SplitRestored` | src/cbc/isa_parser.cpp:257-260 | low four bits plus signed rest restore the value |
| `LebEncodings.IsaParser.ReadCallArgs` | src/cbc/isa_parser.h:200-209 | the biased zero-terminated list reads back, and the cursor stops behind it |
| `OffsetsIndex.InstructionOffsetsIndex.Create` | src/cbc/offsets_index.cpp:17-49 | both vectors list all labels in order of their original offsets |
| `OffsetsIndex.InstructionOffsetsIndex.FindMappedOffset` | src/cbc/offsets_index.cpp:51-62 | forward: present exactly for labels; backward: the least original offset at the position |
| `OffsetsIndex.LowerBound` | src/cbc/offsets_index.cpp:56-59 | the first position not below the value |
| `OffsetsIndex.RewrittenRoundTrip` | src/cbc/offsets_index.cpp:51-62 | rewritten to original and back is the identity |
| `OffsetsIndex.CbcRoundTrip` | src/cbc/offsets_index.cpp:51-62 | original to rewritten and back is the least equivalent offset |
| `Arenas.Arena.DoAllocateSlow` | src/engine/arena.cpp:20-54 | a large block gets its own chunk and leaves the bump region alone; otherwise a new bump region starts |
| `Arenas.Arena.Allocate` | src/engine/arena.cpp:56-68 | every block is 16-aligned, inside one owned chunk and apart from all earlier non-empty blocks, over any history; a chunk is added exactly when the block is large or does not fit |
| `Arenas.Arena.Destroy` | src/engine/arena.cpp:72-80 | frees every owned chunk exactly once |
| `Arenas.AlignMeaning` | src/engine/arena.cpp:11-18 | the next multiple of 16 |

## Left out

- MoveEmission.LowerAllRefines: treats IRZ as an ordinary register; no staged location uses it as a destination.
- ForeignCall.CallDelivers: asks for a parameter area of at most 65536 bytes, because the offset of some argument wraps around in a greater one, and that structs, and the rest of their last word, lie outside the outgoing parameter area, because copies read eight bytes at a time.
- Addresses and sizes are unbounded integers: wrap-around of 64-bit address arithmetic and of 32-bit sizes, offsets and copy offsets is not modelled.
- Loads of kind LD_LEA and the widening float loads: no staged demand uses them.
- StageManagedCallArgs, the code that fills the result area of a foreign call, and the lists of pending reference and record slots for the collector.
- FlattenCAbiFields: the leaf fields of a struct are given as data.
- Term flags other than the variable and reference flags; the OR-ed option flags are kept but nothing is stated about them.
- Term resolution from image files, term names and printing.
- Which extensions match a type is an input of the table builder; matching itself is proved in Matching.
- The cache and the lock of method tables: building is without side effects.
- AOT types in layouts, whose sizes come from foreign type information, and recursion detection for value types.
- LayoutRefs.RefsSpaced: is stated for types of known size; for others the map ends at the first field without an offset.
- References inside union enums: FillRefOffsets skips them, and so does the model.
- LebEncodings.DecodeULEB: asks for a number that ends within ten bytes, since a longer one shifts by more than the word width.
- LebEncodings.DecodeSLEB: asks for the same, for the same reason.
- Matching.TermMatcher.IsPrefix: asks for a target that has no NIL inside and shares no class variable with the pattern; outside of that the answer can be wrong or depend on which terms share a pointer.
- Matching.TermMatcher.Matches: asks for the same targets.
- Rewriting.IsaRewriter.StageForeignCallArgs: promises delivery for parameter areas of at most 65536 bytes only, because the offset of some argument wraps around in a greater one.
- Label positions of the emitter are given as a map with monotone positions.
- The interpretation loop, barriers, atomics, thunks, TypeInfo creation, symbol lookup, logging, streams and disassembly.
