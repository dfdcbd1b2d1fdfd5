# ReSymbol analysis, modelled and proved

ReSymbol recovers symbols from binaries with a set of bounded static analyses. Each keeps mutable
state, runs to a fixpoint or a closure under explicit budgets, and must agree with a separate
validator or with a simpler definition. This project models those analyses in Dafny and proves the
properties they are built on. Every statement is for all inputs and all limits.

| files | component |
|---|---|
| `ElfLoad`, `EeCoverage` | PT_LOAD mapping (System V gABI chapter 5, "Program Header"), span lookup, executable words |
| `R5900`, `EeEffects`, `EeBlocks`, `EeFixpoint`, `EeSoundness`, `EeReality`, `EeLeaders`, `EeSites`, `EeObserver`, `EePropagate`, `EePass` | the PS2 EE observer: constant propagation over a control-flow graph with delay slots |
| `PeMap` | the map from relative virtual addresses to file offsets (Microsoft PE Format, "Section Table (Section Headers)") |
| `RuntimeTargets`, `CodeTargets`, `Retention`, `CfgBlocks`, `Sweep`, `Thunks`, `CodeWalks`, `Cutoffs`, `Recovery`, `Completeness`, `RecoveryChecks` | x86-64 code recovery and its validators |
| `Preorder`, `RttiCaches` | MSVC RTTI preorder spans and memo tables |
| `Utf16`, `Strings`, `StringScan` | string recovery and its validator |
| `Session` | the session ledger |
| `Common` | options, fixed-width integers, counting |

## Main results

- **PS2 EE observer.** `R5900` gives a concrete machine: registers, traps, delay slots, nullified
  likely slots, linked return addresses, calls that resume with arbitrary registers. The abstract
  effects are monotone and sound for it, the worklist ends at the least solution of the join
  equations in whatever order blocks are taken (each entry state is exactly the join of what its
  predecessors deliver), and `EeSoundness.RunsAreTracked` follows every run
  from a seed. From that, `EePropagate.FactsAreReal`: every published fact has an origin, and in each
  position it is published for (a word in its own right, or a delay slot) it names the address really
  used. `EePropagate.EdgesAreClosed` closes the emitted graph, and `EePropagate.PublishBlocks` shows
  that only the final states are published. `EePass.ObserveElf` puts all of it together, from program
  headers and file bytes to the report.
- **Code recovery.** `Recovery.RecoverCode` and `RecoveryChecks.CheckRecovered` show that recovery
  never produces what its own validators reject, for an arbitrary decoder and any cut-off.
  `Completeness` says what an uncut recovery finds in terms of the code alone: everything recovered
  stands at an instruction that control reaches from the entry, and where reachable instructions do
  not overlap, the calls, references and graph are exactly those of the reachable instructions.
  Recovery gives up a path where it overlaps retained code: `Completeness.OverlapIsLost` gives four
  bytes for which reachable code is lost, and for overlapping code the completeness half is stated
  for each walk that meets no overlap. A recovery is cut off only for a cause: every truncation flag
  is tied to more block starts or decodes than the budgets allow, or to something reachable that
  found no room (`Cutoffs`, `Recovery.CutsHaveCauses`), and `Completeness.RoomyIsUncut` gives sizes
  at which no cause can arise. One cause is no limit at all: a pointer call whose operand is relative
  to the instruction pointer but not to RIP has no slot reference and is dropped
  (`CodeTargets.PointerCallHasReference`). `CfgBlocks.PathsCorrespond` is a bijection between
  instruction paths and block paths. `Thunks.CloseThunks` is exact reachability, cycles included.
- **RTTI.** `Preorder.HasValidPreorderSpans` and `Preorder.ListingsAreTrees`: the stack algorithm
  accepts exactly the preorder listings of trees. The caches return what uncached parsing returns and
  conserve their budgets.
- **Strings.** Byte-exact, disjoint, complete unless truncated, truncated only for a cause, and always
  accepted by the validator.
- **PE map.** A partial bijection. The mapper's and the validators' definitions of "backed" do not
  always coincide: `PeMap.EmptyRangesDisagree` gives an input, an empty range at an empty section
  whose recorded file offset lies past the end of the file. `PeMap.AgreementIsExact` says when they
  coincide, in both directions; every range of at least one byte is among those cases.
- **Session.** Acceptance is an order-free condition under which claim counts are conserved.

## Reading the model

- Bytes, decoders and arithmetic that the source takes from elsewhere are parameters. The x86-64
  decoder is an arbitrary function that returns at most 15 and at most the available bytes. Bit-level
  ALU operations of the EE (shifts, masks) are an arbitrary function shared by the concrete machine
  and the analysis; adds, subtracts, compares, conditional moves, memory forms and control flow are
  spelled out. A concrete run is relative to the transfers the observer records: interrupts, indirect
  jumps and unsupported words have no successor, and loads, HI/LO and multimedia words take their
  results from an arbitrary oracle.
- Ordered sets that the source pops or iterates smallest-first are sets taken in any order, so every
  result holds for every order. Where a published list is sorted, the result is stated for every
  sorted listing of the set.
- Limits are parameters; the source's constants are `Retention.LIMITS` and `Strings.LIMITS`.
- `hide` statements keep definitions out of proofs that do not need them; they add nothing to what is
  assumed.
- Error values carry no text: an operation that the source lets fail returns a flag or an option.

## Model

| member | source | states |
|---|---|---|
| ElfLoad.DeriveLoadSegments | crates/resymbol-analysis/src/elf.rs:942-1022 | accepts the program headers iff every header passes its own checks, one loads something and no two loads overlap; the result is exactly the non-empty loads, sorted and pairwise disjoint |
| ElfLoad.CollectLoads | crates/resymbol-analysis/src/elf.rs:942-990 | the first pass accepts iff every header is acceptable, and collects exactly the non-empty loadable ones, each once |
| ElfLoad.NeighboursSuffice | crates/resymbol-analysis/src/elf.rs:991-1022 | checking neighbours of the sorted list rules out every overlapping pair |
| ElfLoad.ImageExtent | crates/resymbol-analysis/src/elf.rs:1024-1046 | base and size are the tightest interval that holds every mapping |
| ElfLoad.StartUpperBound | crates/resymbol-analysis/src/ps2_ee_observer.rs:939-953 | the binary search returns the number of mappings that start at or below the address, with 2^probes at most twice the number of mappings |
| ElfLoad.LookupRefinesScan | crates/resymbol-analysis/src/ps2_ee_observer.rs:955-1042 | looking at two neighbours classifies a non-empty span exactly as inspecting every mapping: in file bytes, in zero fill, touching nothing, otherwise crossing |
| ElfLoad.LookupReportsItsMapping | crates/resymbol-analysis/src/ps2_ee_observer.rs:955-1042 | a mapping is reported iff the span touches one, and a file offset iff the span lies wholly in that mapping's file bytes |
| ElfLoad.EmptySpanIsItsFirstByte | crates/resymbol-analysis/src/ps2_ee_observer.rs:955-1042 | an empty span is classified like the byte at its start |
| ElfLoad.ClassifySpan | crates/resymbol-analysis/src/ps2_ee_observer.rs:955-1042 | the method equals the neighbour lookup, hence the set-based classification |
| EeCoverage.CoverageIsExact | crates/resymbol-analysis/src/ps2_ee_observer.rs:816-917 | the aligned part of a mapping holds exactly the whole aligned words of its file bytes |
| EeCoverage.BuildExecutableCoverage | crates/resymbol-analysis/src/ps2_ee_observer.rs:816-917 | the table is the aligned parts of all executable mappings, refused iff their bytes, words or addresses exceed the limits |
| EeCoverage.CoverageIsValid | crates/resymbol-analysis/src/ps2_ee_observer.rs:816-917 | on a derived mapping the table is sorted, disjoint and file-backed, and covers exactly the executable words |
| EeCoverage.FetchIsExact | crates/resymbol-analysis/src/ps2_ee_observer.rs:1802-1821 | a fetch finds a word iff the address is an aligned covered word, and then its exact file offset |
| EeCoverage.FetchReadsFile | crates/resymbol-analysis/src/ps2_ee_observer.rs:1802-1821 | a fetch reads the little-endian word that the mapping's file bytes hold at the address |
| R5900.DecodeInvertsEncoding | crates/resymbol-analysis/src/arch/ps2_ee_r5900.rs:331-516 | a word decodes to a sequential mnemonic only if it carries exactly that mnemonic's encoding, in every profile |
| EeEffects.JoinIsLeastUpperBound | crates/resymbol-analysis/src/ps2_ee_observer.rs:653-669 | the register join is the least upper bound of the flat lattice |
| EeEffects.JoinFrom | crates/resymbol-analysis/src/ps2_ee_observer.rs:655-669 | the in-place loop computes the join and reports a change iff the incoming state was not already accounted for |
| EeEffects.ApplyIsMonotone | crates/resymbol-analysis/src/ps2_ee_observer.rs:1908-2185 | degrading a state never introduces a definite trap and only weakens the result of a word |
| EeEffects.ApplyIsSound | crates/resymbol-analysis/src/ps2_ee_observer.rs:1908-2185 | the abstract effect of a word covers the concrete one; a definite trap is reported only when every described register file traps |
| EeEffects.RefinementAgrees | crates/resymbol-analysis/src/ps2_ee_observer.rs:1908-2185 | for every word the decoder accepts, the raw-field classification performs exactly the decoded mnemonic |
| EeEffects.ShiftAgrees | crates/resymbol-analysis/src/ps2_ee_observer.rs:2029-2171 | shifts by immediate and by register, with the amount masked to 5 or 6 bits |
| EeEffects.TrappingAgrees | crates/resymbol-analysis/src/ps2_ee_observer.rs:2557-2620 | the checked adds and subtracts trap exactly on signed overflow in their width |
| EeEffects.WrappingAgrees | crates/resymbol-analysis/src/ps2_ee_observer.rs:1908-2171 | the wrapping adds and subtracts are the architectural sign-extended 32-bit or 64-bit results |
| EeEffects.LogicAgrees | crates/resymbol-analysis/src/ps2_ee_observer.rs:1908-2171 | logical operations, with zero-extended immediates |
| EeEffects.CompareAgrees | crates/resymbol-analysis/src/ps2_ee_observer.rs:1908-2171 | set-on-less-than and load-upper-immediate |
| EeEffects.OtherAgrees | crates/resymbol-analysis/src/ps2_ee_observer.rs:1908-2185 | conditional moves, and words whose result is forgotten |
| EeEffects.MemoryFormsAgree | crates/resymbol-analysis/src/ps2_ee_observer.rs:2436-2475 | form and width recorded for a memory word are those of the decoded mnemonic |
| EeEffects.BranchTestsAgree | crates/resymbol-analysis/src/ps2_ee_observer.rs:2509-2516 | the raw-field tests for linking and likely branches agree with the decoded mnemonic |
| EeEffects.BundledTablesAgree | crates/resymbol-analysis/src/ps2_ee_observer.rs:1908-2475 | every bundled decoder profile agrees with the observer's tables, which is what soundness asks of them |
| EeBlocks.ExitsAreMonotone | crates/resymbol-analysis/src/ps2_ee_observer.rs:1245-1668 | degrading the entry state of a block only adds successors and weakens their states, delay slots, traps, links and call continuations included |
| EeBlocks.SlotIsMonotone | crates/resymbol-analysis/src/ps2_ee_observer.rs:1670-1710 | a delay slot that continues from a state continues from every weaker one, in a weaker state |
| EeBlocks.CanonicalIsLowWord | crates/resymbol-analysis/src/ps2_ee_observer.rs:2526-2535 | canonicalising keeps the low word, and yields a 32-bit address exactly when the high half is zero or a sign extension |
| EeFixpoint.LeastIsUnique | crates/resymbol-analysis/src/ps2_ee_observer.rs:1193-1224 | the least solution of the join equations is unique, so the order of the worklist cannot matter |
| EeFixpoint.LeastIsJoin | crates/resymbol-analysis/src/ps2_ee_observer.rs:1193-1224 | in the least solution every entry state that is no seed is exactly the join of the states delivered to it: it covers each of them, and every state that covers them all is at least as weak |
| EeFixpoint.DeliverOne | crates/resymbol-analysis/src/ps2_ee_observer.rs:1209-1223 | delivering one successor state keeps the worklist invariant, whether or not its target changes |
| EeFixpoint.InsertionMakesProgress | crates/resymbol-analysis/src/ps2_ee_observer.rs:1712-1733 | inserting into a known block forgets a constant or changes nothing |
| EeFixpoint.EmptyWorklistIsLeast | crates/resymbol-analysis/src/ps2_ee_observer.rs:1206-1224 | with nothing pending the recorded states are the least solution |
| EeSoundness.TransferIsSound | crates/resymbol-analysis/src/ps2_ee_observer.rs:1245-1710 | one concrete control transfer, delay slot executed or nullified and return address linked, is covered by a successor of the block |
| EeSoundness.StepIsCovered | crates/resymbol-analysis/src/ps2_ee_observer.rs:1245-1710 | every concrete step from a described register file is covered by the analysis of its word |
| EeSoundness.RunsAreTracked | crates/resymbol-analysis/src/ps2_ee_observer.rs:1193-1710 | soundness over whole runs: from a seed with any registers, at every covered point of every run each register held exact has that value |
| EeReality.OneBlockPerWord | crates/resymbol-analysis/src/ps2_ee_observer.rs:1245-1275 | leader discipline: a word outside a terminator's delay slot is walked by at most one block, in one state |
| EeReality.PublishedFactsAreReal | crates/resymbol-analysis/src/ps2_ee_observer.rs:2200-2292 | every fact stems from a point of a block's walk, and in each position it is published for (the word itself, or the delay slot after a transfer) it names the address really accessed or computed, on every execution of every run from a seed, its last word included and whatever the slot loads; its class is that of the mapping at that address |
| EeReality.RecordIsAtLast | crates/resymbol-analysis/src/ps2_ee_observer.rs:1245-1668 | a block record is that of the last word its walk stands at: there the next word is a boundary, or the word stops the walk |
| EeReality.RecordEnds | crates/resymbol-analysis/src/ps2_ee_observer.rs:1245-1668 | the end of a record lies after its last word and delay slot, and its word count is that of the words decoded, slot included |
| EeReality.RecordHoldsItsWords | crates/resymbol-analysis/src/ps2_ee_observer.rs:1245-1668 | each word between start and end of a record is passed by the walk or is the delay slot of its transfer |
| EeReality.BlocksShareOnlySlots | crates/resymbol-analysis/src/ps2_ee_observer.rs:1245-1710 | two blocks share a word only as the delay slot of one of them |
| EeReality.WordIsPublished | crates/resymbol-analysis/src/ps2_ee_observer.rs:1245-1668 | conversely, a block publishes what each of its walked words and its delay slot observe |
| EeLeaders.ExitsAreLeaders | crates/resymbol-analysis/src/ps2_ee_observer.rs:1128-1191 | every executable successor target of every block, in whatever state it is analysed, was a boundary after the linear scan |
| EeLeaders.StateFreeExitsAreSeeds | crates/resymbol-analysis/src/ps2_ee_observer.rs:1128-1191 | only direct calls leave without a state, and their executable targets are seeds |
| EeLeaders.GraphIsClosed | crates/resymbol-analysis/src/ps2_ee_observer.rs:1128-1243 | each successor of a discovered block is itself discovered or lies outside coverage |
| EeSites.AnchorIsExact | crates/resymbol-analysis/src/ps2_ee_observer.rs:2374-2434 | an address has a string anchor iff a printable text of at least four bytes and a NUL stand there in the file bytes of one mapping, within the limit |
| EeObserver.Observer.constructor | crates/resymbol-analysis/src/ps2_ee_observer.rs:680-696 | a fresh accumulator over a valid range table: nothing collected, no words charged |
| EeObserver.Observer.AddBoundary | crates/resymbol-analysis/src/ps2_ee_observer.rs:1773-1786 | adds the boundary, refusing only a new one in a full set |
| EeObserver.Observer.AddBoundaryIfExecutable | crates/resymbol-analysis/src/ps2_ee_observer.rs:1766-1771 | adds exactly the executable targets |
| EeObserver.Observer.AddSeed | crates/resymbol-analysis/src/ps2_ee_observer.rs:1747-1764 | adds the seed and its reason together with its boundary; when only the boundary finds no room the seed is already in place, and the caller gives up |
| EeObserver.Observer.CollectDeclaredSeeds | crates/resymbol-analysis/src/ps2_ee_observer.rs:1064-1090 | the seeds are exactly the executable range starts, entry point and function symbols; refused only when the entry point is not executable or a cap is reached |
| EeObserver.Observer.ScanAllExecutableWords | crates/resymbol-analysis/src/ps2_ee_observer.rs:1128-1191 | a complete scan adds exactly the announced leaders and call seeds; it stops early only when those sets really exceed their caps |
| EeObserver.Observer.RecordSite | crates/resymbol-analysis/src/ps2_ee_observer.rs:2294-2368 | retains a site and charges its text exactly once; refuses only when the sites are full or the text no longer fits |
| EeObserver.Observer.RecordXref | crates/resymbol-analysis/src/ps2_ee_observer.rs:2245-2292 | retains a cross-reference and, if its bytes are in the file, its site: the sites stay exactly those of the cross-references |
| EeObserver.Observer.Record | crates/resymbol-analysis/src/ps2_ee_observer.rs:2200-2292 | retains a fact in its own set, refusing only what no longer fits |
| EeObserver.Observer.BumpWordSteps | crates/resymbol-analysis/src/ps2_ee_observer.rs:1788-1800 | charges one word and reports whether the budget still holds |
| EeObserver.Observer.ExecuteDelaySlot | crates/resymbol-analysis/src/ps2_ee_observer.rs:1670-1710 | one more word step and, when emitting, the slot's fact |
| EeObserver.Observer.AnalyzeBlock | crates/resymbol-analysis/src/ps2_ee_observer.rs:1245-1668 | record, successors, cost and facts of the block are those of the block transfer; facts are published only when emitting; it fails only when the word budget or a fact, site or text cap does not cover the block |
| EePropagate.InsertEntryState | crates/resymbol-analysis/src/ps2_ee_observer.rs:1712-1733 | joins into a known block and marks it pending iff it changed; refuses only a new block over the cap |
| EePropagate.RoomForLeader | crates/resymbol-analysis/src/ps2_ee_observer.rs:1712-1733 | blocks start at boundaries, so the block cap never stops propagation |
| EePropagate.DeliverSuccessors | crates/resymbol-analysis/src/ps2_ee_observer.rs:1214-1223 | delivering all successors of a block keeps the invariant and discovers a block, forgets a constant, or changes nothing |
| EePropagate.PropagateEntryStates | crates/resymbol-analysis/src/ps2_ee_observer.rs:1193-1224 | phase one terminates in any order and, unless the word budget runs out, ends at the least solution of the join equations |
| EePropagate.InsertEdges | crates/resymbol-analysis/src/ps2_ee_observer.rs:1735-1745 | the edge set grows by exactly the successors' edges, or the cap is reached |
| EePropagate.PublishBlocks | crates/resymbol-analysis/src/ps2_ee_observer.rs:1226-1243 | phase two rebuilds blocks, edges, facts and sites exactly from the final entry states; nothing older survives |
| EePropagate.PropagateCfg | crates/resymbol-analysis/src/ps2_ee_observer.rs:1193-1243 | both phases: the least solution, and exactly its blocks, edges and facts; failure names the cap that was hit |
| EePropagate.EdgesAreClosed | crates/resymbol-analysis/src/ps2_ee_observer.rs:1226-1243 | after phase two every edge ends at an emitted block or outside coverage |
| EePropagate.FactsAreReal | crates/resymbol-analysis/src/ps2_ee_observer.rs:1226-1243 | every published fact has an origin, is real in each position it is published for on every run from a seed of the pass, and is classified by the mapping |
| EePropagate.EmittedBlocksShareOnlySlots | crates/resymbol-analysis/src/ps2_ee_observer.rs:1226-1243 | two emitted blocks share a word only as the delay slot of one of them |
| EePropagate.EmittedRecord | crates/resymbol-analysis/src/ps2_ee_observer.rs:1226-1243 | an emitted record is that of the last word of the walk from its final entry state |
| EePropagate.Analyze | crates/resymbol-analysis/src/ps2_ee_observer.rs:702-790 | the whole pass on a fresh observer: seeds, scan, both phases |
| EePass.ObserveElf | crates/resymbol-analysis/src/ps2_ee_observer.rs:698-790 | from program headers and bytes: the words analysed are exactly the little-endian words of the executable mappings, decoded as the selected profile does, and the seeds are the declared ones; a complete pass reports only real facts, closed edges and the sites of its cross-references; otherwise the outcome names the condition that failed |
| EePass.CompletedReports | crates/resymbol-analysis/src/ps2_ee_observer.rs:698-790 | a completed pass has only real facts and closed edges, and exactly the sites of its cross-references |
| PeMap.ValidateSectionOrder | crates/resymbol-analysis/src/pe.rs:6009-6044 | accepts iff all addresses ascend and all file offsets of sections with file data ascend |
| PeMap.ValidateSectionOverlaps | crates/resymbol-analysis/src/pe.rs:6046-6098 | accepts iff no two sections share a loaded address or a file byte |
| PeMap.ValidateLayout | crates/resymbol-analysis/src/pe.rs:2622-2797 | the layout checks accept iff image and sections are aligned, the section table lies in the headers, and every section fits, in order and without overlap |
| PeMap.SubPageMapIsIdentity | crates/resymbol-analysis/src/pe.rs:5994-6006 | an image aligned below the page size is mapped exactly as it lies in the file |
| PeMap.MapperIsItsRegions | crates/resymbol-analysis/src/pe.rs:5643-5675 | the mapper maps a non-empty range iff the headers or one section's backed bytes hold it whole, by that region's displacement |
| PeMap.MapIsInjective | crates/resymbol-analysis/src/pe.rs:5643-5675 | distinct backed addresses map to distinct file offsets; headers and sections never collide |
| PeMap.MapIsContiguous | crates/resymbol-analysis/src/pe.rs:5643-5675 | a mapped range lies in the file and each of its bytes maps to the next offset |
| PeMap.BackedDefinitionsAgree | crates/resymbol-analysis/src/code_recovery.rs:1761-1857 | mapper-backed is model-backed for sizes of at least 1, and the readable and read-only data variants coincide for all sizes |
| PeMap.ExecutableDefinitionsAgree | crates/resymbol-analysis/src/code_recovery.rs:1739-1811 | backed and in one executable section is the same as inside the backed part of an executable section |
| PeMap.ContiguousIsMaximal | crates/resymbol-analysis/src/pe.rs:5710-5760 | the contiguous bytes at an address are the longest range the mapper maps from it |
| PeMap.EmptyRangesDisagree | crates/resymbol-analysis/src/pe.rs:2536-2552 | a concrete aligned, accepted image and address at which an empty range is model-backed and not mapper-backed |
| PeMap.AgreementIsExact | crates/resymbol-analysis/src/pe.rs:2536-2552 | mapper and model agree on a range iff it has at least one byte, or lies in the headers, or the first section reaching its start is not an empty one recorded past the end of the file |
| RuntimeTargets.NewPolicy | crates/resymbol-analysis/src/code_recovery.rs:72-107 | the index holds exactly the known starts, and separated intervals that cover exactly the runtime functions, overlapping or unsorted as they may be |
| RuntimeTargets.AllowsFunctionTarget | crates/resymbol-analysis/src/code_recovery.rs:109-118 | the query holds iff the address is a known start or in no interval |
| RuntimeTargets.IndexedTarget | crates/resymbol-analysis/src/code_recovery.rs:71-118 | index and query together: a known start, or inside no runtime function |
| CodeTargets.CallTargetIsAccepted | crates/resymbol-analysis/src/code_recovery.rs:1066-1093 | a decoded call target passes the target validator, has a supported size and is never the next instruction, even at the end of the image or of the address space |
| CodeTargets.ThunkTargetIsAccepted | crates/resymbol-analysis/src/code_recovery.rs:1095-1125 | a decoded thunk passes the thunk validator's own checks |
| CodeTargets.IndirectIsAccepted | crates/resymbol-analysis/src/code_recovery.rs:1135-1168 | an exact RIP-relative slot is an import, or a read-only pointer to an allowed executable address other than the rejected one |
| CodeTargets.ReferenceTargetIsAccepted | crates/resymbol-analysis/src/code_recovery.rs:967-989 | a decoded data reference names its instruction and readable initialized data in the image |
| CodeTargets.PointerCallHasReference | crates/resymbol-analysis/src/code_recovery.rs:967-1063 | a pointer call is decoded beside the reference to its slot iff its operand is relative to RIP, so a pointer-relative call over another register is dropped even with room in both caps |
| CodeTargets.PolicyAllows | crates/resymbol-analysis/src/code_recovery.rs:109-118 | the indexed query answers the rule the decoders and validators use |
| Retention.Accumulator.constructor | crates/resymbol-analysis/src/code_recovery.rs:821-832 | empty records and budgets |
| Retention.Accumulator.ConsumeInstruction | crates/resymbol-analysis/src/code_recovery.rs:133-149 | charges bytes and one instruction for a task not done before, or neither when a limit would be exceeded; the budgets are exactly what the tasks done add up to |
| Retention.Accumulator.ConsumeBlockStart | crates/resymbol-analysis/src/code_recovery.rs:158-164 | charges one new block start, or refuses it and remembers which when distinct starts fill the limit |
| Retention.Accumulator.RetainReference | crates/resymbol-analysis/src/code_recovery.rs:1019-1044 | keeps a reference iff it is known or there is room; a dropped one raises its flag and is never also retained |
| Retention.Accumulator.RetainCall | crates/resymbol-analysis/src/code_recovery.rs:1046-1063 | keeps a call iff its required reference was kept and it is known or there is room; a dropped one is noted with what it lacked |
| Retention.Accumulator.RetainRelationships | crates/resymbol-analysis/src/code_recovery.rs:1029-1064 | caps and pairing hold after every step; each flag is raised iff the step drops a relationship of that kind, and over the whole run iff something was dropped, a start refused or a decode refused |
| CfgBlocks.RecordKeepsCoherent | crates/resymbol-analysis/src/code_recovery.rs:442-468 | recording an instruction that overlaps nothing keeps the recorder coherent |
| CfgBlocks.CloseBlock | crates/resymbol-analysis/src/code_recovery.rs:494-521 | the inner loop closes a block at the last instruction of its walk |
| CfgBlocks.Finish | crates/resymbol-analysis/src/code_recovery.rs:478-527 | one block per leader, in address order, each the walk from its leader; no graph iff the entry was not recorded |
| CfgBlocks.BlocksPartition | crates/resymbol-analysis/src/code_recovery.rs:470-527 | blocks ascend, are disjoint, hold every recorded instruction and consist of recorded instructions without a gap |
| CfgBlocks.BlocksAreDisjoint | crates/resymbol-analysis/src/code_recovery.rs:478-527 | each block ends at or before the next one starts |
| CfgBlocks.EdgeTargetsAreStarts | crates/resymbol-analysis/src/code_recovery.rs:478-576 | every edge target that is a recorded instruction is a block start |
| CfgBlocks.BlockStepIsLastStep | crates/resymbol-analysis/src/code_recovery.rs:530-576 | leaving a block along an edge is leaving its last instruction along that edge |
| CfgBlocks.ErasedPath | crates/resymbol-analysis/src/code_recovery.rs:441-576 | an instruction path with its in-block steps dropped is a path of the block graph |
| CfgBlocks.ExpandedPath | crates/resymbol-analysis/src/code_recovery.rs:441-576 | every block path comes from an instruction path to any instruction of its last block |
| CfgBlocks.PathsCorrespond | crates/resymbol-analysis/src/code_recovery.rs:441-576 | instruction paths from the entry to an instruction correspond one-to-one with block paths to the block that holds it |
| Sweep.Traversal.DecodedLocation | crates/resymbol-analysis/src/code_recovery.rs:211-228 | the 14-byte look-back equals a search of all retained instructions |
| Sweep.Traversal.Queue | crates/resymbol-analysis/src/code_recovery.rs:189-205 | queues an address iff it is neither discovered nor decoded and a start is left, charging exactly that start |
| Sweep.Traversal.RetainInstruction | crates/resymbol-analysis/src/code_recovery.rs:230-244 | retains iff no retained instruction starts inside; retained instructions stay pairwise disjoint |
| Sweep.Offer | crates/resymbol-analysis/src/code_recovery.rs:617-790 | a refused start raises both flags and is remembered; nothing else changes |
| Sweep.Charge | crates/resymbol-analysis/src/code_recovery.rs:662-669 | a decode is charged to the block start or the instruction it follows, once, or does not fit the budget |
| Sweep.ScanInstruction | crates/resymbol-analysis/src/code_recovery.rs:662-790 | one instruction keeps every invariant of the sweep: disjoint in-range intervals, coherent recorder, everything on a walk from the entry, fitting records, and a ledger of what each budget was used for; it is exhausted only when the decode at hand does not fit the budget |
| Sweep.ScanBlock | crates/resymbol-analysis/src/code_recovery.rs:652-792 | a path is decoded until it ends, meets a retained instruction or has a decode left that does not fit the budget |
| Sweep.ScanRuntimeFunction | crates/resymbol-analysis/src/code_recovery.rs:603-798 | the sweep terminates in any order; everything retained, dropped and charged is what the code stands for, on a walk of recorded instructions from the entry; unless cut off it has explored the entry, every continuation and every executable in-range target; it is exhausted only with a decode left that does not fit the budget |
| Sweep.DecodeAt | crates/resymbol-analysis/src/code_recovery.rs:662-704 | the instruction read at an address and its exact bytes |
| Thunks.VisitCandidate | crates/resymbol-analysis/src/code_recovery.rs:896-951 | visits one candidate and charges its decode; cut off only by a candidate that decodes to nothing, does not fit the decode budget, or whose thunk does not fit the cap |
| Thunks.LocalTargetIsExecutable | crates/resymbol-analysis/src/code_recovery.rs:941-950 | a thunk's local target is always executable, so the seed filter never drops one |
| Thunks.VisitLayer | crates/resymbol-analysis/src/code_recovery.rs:893-953 | a layer visits each unvisited candidate once; it visits something new or leaves no next layer, or names the candidate that stopped it |
| Thunks.CloseThunks | crates/resymbol-analysis/src/code_recovery.rs:889-954 | terminates; retained thunks are always reachable through retained thunks, and when not cut off they are exactly the decodable thunks reachable from the seeds; when cut off, a reachable candidate is named that stopped it |
| CodeWalks.RetainedIsWalked | crates/resymbol-analysis/src/code_recovery.rs:603-798 | whatever a sweep retains, cut off or not, control reaches it from the entry through the code as decoded, overlapping code or not |
| CodeWalks.DiscoveredStarts | crates/resymbol-analysis/src/code_recovery.rs:774-790 | whatever a sweep discovers is the entry or where control branches to from code it reaches |
| Cutoffs.SweepIsGenuine | crates/resymbol-analysis/src/code_recovery.rs:603-798 | every decode and start charged, every start refused and every call and reference dropped stands for a distinct decode, block start, call or reference of code that control reaches |
| Cutoffs.ExhaustedIsSpent | crates/resymbol-analysis/src/code_recovery.rs:667-669 | a sweep that exhausts the decode budget leaves more genuine decodes than the budget allows |
| Cutoffs.AloneIsNotRelative | crates/resymbol-analysis/src/code_recovery.rs:1046-1063 | a call dropped without its slot reference has an operand that is not relative to RIP |
| Cutoffs.FlagsHaveCauses | crates/resymbol-analysis/src/code_recovery.rs:841-885 | the scan flag and the data flag of a sweep each have a cause in the code |
| Cutoffs.StartsAreFew | crates/resymbol-analysis/src/code_recovery.rs:158-164 | the functions have no more block starts than bytes |
| Cutoffs.TasksAreFew | crates/resymbol-analysis/src/code_recovery.rs:133-149 | recovery never has more to decode than two instructions for each byte of its functions and one for each address of the image |
| Cutoffs.RoomyIsNotSpent | crates/resymbol-analysis/src/code_recovery.rs:127-164 | budgets that cover those numbers are never spent |
| Recovery.CfgAccumulator.Push | crates/resymbol-analysis/src/code_recovery.rs:588-599 | keeps a non-empty graph with a new entry iff the block cap allows it, flags it otherwise, and counts blocks exactly |
| Recovery.CfgIsAccepted | crates/resymbol-analysis/src/code_recovery.rs:1443-1583 | the graph of any sweep passes the graph validator |
| Recovery.KeepGraph | crates/resymbol-analysis/src/code_recovery.rs:872-874 | the graph of what was recorded is among the graphs, or it is missing because it does not fit the block cap |
| Recovery.SweepFunction | crates/resymbol-analysis/src/code_recovery.rs:841-885 | sweeping one more function keeps all records acceptable and the ledger genuine; unless something was cut off it is explained in full, and it is exhausted only when there is more to decode than the budget allows |
| Recovery.SweepFunctions | crates/resymbol-analysis/src/code_recovery.rs:841-885 | all functions in order, until a budget is spent, with a cause in the code for whatever was cut off |
| Recovery.SeedsAreModeled | crates/resymbol-analysis/src/code_recovery.rs:1170-1219 | recovery's thunk seeds are among the validator's |
| Recovery.FindThunks | crates/resymbol-analysis/src/code_recovery.rs:887-954 | the thunk search from the named functions passes the thunk validator's conditions, and is cut off only for a cause in the code |
| Recovery.ThunkIsAccepted | crates/resymbol-analysis/src/code_recovery.rs:1321-1363 | a retained thunk lies wholly in executable bytes and passes the validator |
| Recovery.RecoverCode | crates/resymbol-analysis/src/code_recovery.rs:800-965 | however it is cut off, the result satisfies all three validators' conditions; when not truncated every backed function is recovered in full and the thunks are exactly the reachable ones; each truncation flag has a cause in the code: more block starts or more to decode than the budgets allow, or a reachable call, reference, graph or thunk that is missing for lack of room or of a slot reference |
| Completeness.WalkIsRetained | crates/resymbol-analysis/src/code_recovery.rs:603-798 | every instruction of a walk from the entry is retained if no reachable instruction overlaps one on that walk |
| Completeness.ExplorationIsExact | crates/resymbol-analysis/src/code_recovery.rs:603-798 | where no two reachable instructions overlap and the entry has a 64-bit address (or decodes to nothing), exactly the reachable instructions are retained |
| Completeness.ExactOnlyIfUnambiguous | crates/resymbol-analysis/src/code_recovery.rs:230-244 | conversely, exactly the reachable instructions are retained only where no two of them overlap and the entry has a 64-bit address or decodes to nothing |
| Completeness.OverlapIsNotRetained | crates/resymbol-analysis/src/code_recovery.rs:230-244 | of two overlapping instructions at most one is retained |
| Completeness.OverlapIsLost | crates/resymbol-analysis/src/code_recovery.rs:630-636 | the bytes 74 01 EB C3: both ways through the branch are reached, they overlap, and no exploration retains both |
| Completeness.RecoveredIsWalked | crates/resymbol-analysis/src/code_recovery.rs:800-965 | every recovered call and data reference is the one decoded at an instruction control reaches |
| Completeness.WalkIsRecovered | crates/resymbol-analysis/src/code_recovery.rs:800-965 | in an uncut recovery the call and the data reference at the end of a walk without overlaps are recovered, however the rest of the function overlaps |
| Completeness.RecoveredCallsAreExact | crates/resymbol-analysis/src/code_recovery.rs:800-965 | in an uncut recovery, where reachable instructions do not overlap and the entry has a 64-bit address, a call is recovered for a function iff control reaches its instruction from the entry and it is the call decoded there |
| Completeness.RecoveredReferencesAreExact | crates/resymbol-analysis/src/code_recovery.rs:800-965 | the same for data references, unless their own cap was hit |
| Completeness.RecoveredGraphIsExact | crates/resymbol-analysis/src/code_recovery.rs:872-874 | the graph of a function is the block graph of exactly the valid instructions control reaches from its entry |
| Completeness.RoomyIsUncut | crates/resymbol-analysis/src/code_recovery.rs:800-965 | with a decoder whose instructions have bytes and whose pointer calls are relative to RIP, and budgets that cover the code, a recovery that stays under its caps is not cut off |
| RecoveryChecks.ValidateCalls | crates/resymbol-analysis/src/code_recovery.rs:1221-1319 | accepts iff the calls are within the cap, strictly sorted, one per caller and site, and each acceptable |
| RecoveryChecks.ValidateThunks | crates/resymbol-analysis/src/code_recovery.rs:1225-1378 | accepts iff the thunks are within the cap, strictly sorted, one per source, acceptable, and reachable through each other |
| RecoveryChecks.ReachableSources | crates/resymbol-analysis/src/code_recovery.rs:1633-1654 | the worklist computes exactly the addresses reachable from the seeds through the listed thunks |
| RecoveryChecks.ValidateReferences | crates/resymbol-analysis/src/code_recovery.rs:1380-1441 | accepts iff the references are within the cap, strictly sorted, one per caller and instruction, and each acceptable |
| RecoveryChecks.ValidateGraph | crates/resymbol-analysis/src/code_recovery.rs:1473-1513 | accepts one graph iff its entry, first block, block order, ranges and terminators are right |
| RecoveryChecks.ValidateGraphs | crates/resymbol-analysis/src/code_recovery.rs:1443-1515 | accepts iff the graphs ascend by entry, each is acceptable, and the blocks are within the cap |
| RecoveryChecks.RecoveredRecordsPass | crates/resymbol-analysis/src/code_recovery.rs:1221-1441 | sorted listings of recovered calls and references are acceptable |
| RecoveryChecks.RecoveredThunksPass | crates/resymbol-analysis/src/code_recovery.rs:1321-1378 | a sorted listing of recovered thunks is acceptable |
| RecoveryChecks.RecoverAndCheck | crates/resymbol-analysis/src/code_recovery.rs:800-965 | recovering, listing in order and validating always succeeds, an uncut recovery is complete, and a cut one has a cause in the code |
| RecoveryChecks.CheckRecovered | crates/resymbol-analysis/src/code_recovery.rs:1221-1583 | no self-rejection: all three validators accept what recovery produced, for any bounded decoder, accepted layout, ordered functions and limits |
| Preorder.ListingsAreTrees | crates/resymbol-analysis/src/msvc_rtti.rs:1218-1244 | nested spans are exactly the preorder listings of trees, and flattening and rebuilding a tree undo each other |
| Preorder.HasValidPreorderSpans | crates/resymbol-analysis/src/msvc_rtti.rs:1218-1244 | the stack algorithm accepts a non-empty array iff its counts list one rooted tree, each count being the number of proper descendants |
| Preorder.RootCountIsImplied | crates/resymbol-analysis/src/msvc_rtti.rs:405-410 | the root's count is one less than the length of any listing |
| RttiCaches.RootTestIsImplied | crates/resymbol-analysis/src/msvc_rtti.rs:398-418 | the locator's separate root-count test never rejects a parsed hierarchy |
| RttiCaches.ParseCaches.constructor | crates/resymbol-analysis/src/msvc_rtti.rs:63-70 | empty tables, zero counters |
| RttiCaches.ParseCaches.ReserveNameBytes | crates/resymbol-analysis/src/msvc_rtti.rs:116-128 | charges the bytes, or marks the caches exhausted without charging |
| RttiCaches.ParseCaches.LookupTypeName | crates/resymbol-analysis/src/msvc_rtti.rs:75-88 | returns the pure parse unless the name budget really ran out; counters stay equal to the sums over cached entries |
| RttiCaches.ParseCaches.ParseBase | crates/resymbol-analysis/src/msvc_rtti.rs:507-582 | one base class through the caches is the pure one, unless the name of its own type no longer fits |
| RttiCaches.ParseCaches.ParseHierarchy | crates/resymbol-analysis/src/msvc_rtti.rs:461-505 | a hierarchy through the caches is the pure one, all bases and then the preorder test, unless the name of one of its own bases no longer fits |
| RttiCaches.ParseCaches.LookupHierarchy | crates/resymbol-analysis/src/msvc_rtti.rs:90-114 | returns the pure hierarchy unless a budget really ran out, and then caches and charges nothing |
| Utf16.ScalarRoundTrip | crates/resymbol-analysis/src/string_recovery.rs:488-501 | decoding yields a scalar exactly where its encoding stands (RFC 2781 sections 2.1 and 2.2) |
| Strings.AsciiIsUnique | crates/resymbol-analysis/src/string_recovery.rs:369-411 | at most one length at a position is an ASCII literal |
| Strings.AsciiCandidate | crates/resymbol-analysis/src/string_recovery.rs:369-411 | finds the literal iff printable bytes, not all blanks, start a run there and end in a NUL, within the limits |
| Strings.RunIsEncoded | crates/resymbol-analysis/src/string_recovery.rs:413-481 | a decoded run is control-free and its bytes are exactly its encoding with terminator |
| Strings.EncodedIsRun | crates/resymbol-analysis/src/string_recovery.rs:413-481 | where an encoded, terminated, control-free text stands, the run decodes to that text |
| Strings.Utf16Candidate | crates/resymbol-analysis/src/string_recovery.rs:413-481 | the counting loop finds the run's text iff it is long enough, visible and within the limits |
| StringScan.FoundIsExact | crates/resymbol-analysis/src/string_recovery.rs:304-481 | a candidate is byte-exact and its text passes the record validator |
| StringScan.GreedyAscends | crates/resymbol-analysis/src/string_recovery.rs:304-367 | the literals of a section ascend, are disjoint and byte-exact |
| StringScan.GreedyIsComplete | crates/resymbol-analysis/src/string_recovery.rs:304-367 | every position that has a candidate is covered by a published literal |
| StringScan.ImageIsCovered | crates/resymbol-analysis/src/string_recovery.rs:60-118 | every position of every eligible section at which a literal starts is covered by a literal of the image |
| StringScan.ScanSection | crates/resymbol-analysis/src/string_recovery.rs:304-367 | adds the greedy literals of a section, cut short only when the count or the total size leaves no room |
| StringScan.RecoverStrings | crates/resymbol-analysis/src/string_recovery.rs:60-118 | whatever limit is hit, the output is accepted by the validator's conditions and byte-exact in the image; when none is hit, every position at which a literal starts is covered; it is truncated only if the eligible bytes exceed the scan budget, some literal is overlong, or the next literal does not fit, and within the scan budget it publishes all literals or stops before one that does not fit |
| StringScan.SortIsNoOp | crates/resymbol-analysis/src/string_recovery.rs:115-117 | sorting by address leaves a strictly ascending list as it is |
| StringScan.AcceptedIsStrict | crates/resymbol-analysis/src/string_recovery.rs:115-117 | accepted records ascend strictly, so removing duplicates changes nothing |
| StringScan.ValidateStrings | crates/resymbol-analysis/src/string_recovery.rs:141-279 | accepts iff count, totals, each record's text, size, range and order are right |
| StringScan.CheckStrings | crates/resymbol-analysis/src/string_recovery.rs:56-279 | the scanner's output always passes the validator |
| Session.IndexRuns | crates/resymbol-analysis/src/session.rs:190-198 | accepts iff every run is valid and no id occurs twice |
| Session.TallyClaims | crates/resymbol-analysis/src/session.rs:205-251 | accepts iff every claim is backed by a successful run of its producer and every count fits 64 bits, and counts the claims of each run |
| Session.AcceptableIsCountable | crates/resymbol-analysis/src/session.rs:247-251 | the 64-bit counters of an acceptable session never overflow |
| Session.Validate | crates/resymbol-analysis/src/session.rs:183-283 | accepts a session iff it satisfies a condition that mentions no order |
| Session.AcceptanceIgnoresOrder | crates/resymbol-analysis/src/session.rs:183-283 | acceptance is unchanged by permuting claims, runs or base claims |
| Session.LedgerBalances | crates/resymbol-analysis/src/session.rs:271-283 | the recorded counts add up to exactly the number of plugin claims |
| Session.FailedRunsOwnNothing | crates/resymbol-analysis/src/session.rs:237-242 | no claim of an accepted session belongs to a failed run |
| Session.IdsDiffer | crates/resymbol-analysis/src/session.rs:190-198 | two runs of an accepted session never share an id |

## Left out

- Error variants and their order: a validator's verdict is modelled, not which of several faults it names first.
- Allocation failures and conversions between machine integer widths that cannot fail on the modelled ranges.
- The x86-64 instruction decoder (iced-x86) and the MSVC demangler: arbitrary functions.
- `is_semantically_defined_function_symbol`: the filtered function symbols are a parameter of the observer pass.
- Image-relative address columns of the observer's report: each is an address minus the image base.
- `require_eligible_container`, limit validation and report assembly of the observer: straight-line checks.
- Signatures, machine type, limits and data directories in `parse_headers`: field reads around the modelled layout checks.
- The sort and deduplication of runtime-function ranges in `recover_code`: the parser only accepts strictly ascending, disjoint functions, on which both are the identity.
- `build_scan_plan`, `parse_msvc_rtti`, `parse_locator`, `parse_virtual_functions` and `validate_msvc_rtti`: per-field checks around the modelled hierarchy parsing; reading one descriptor is a parameter of `RttiCaches`.
- Plugin version, run id and fingerprint syntax, claim ranges and section policy in `session.rs`: each is one flag on the run or claim.
- `combined_symbol_graph`, `build_symbol_graph`, claim and evidence construction: appending records.
- ELF header and symbol readers, `entry_rva`, Mach-O, linear disassembly, the application crate, serialization and hashing: bounded record walks and plumbing.
- StringScan.RecoverStrings: takes sections in table order, because the layout checks already order them by address; the source's own sort never swaps two sections that hold data.
- Session.Validate: the range, section and text checks of one claim or run are a flag on it, because each looks at that record alone.
- EePropagate.Analyze: ends with the filled observer; copying its sets into the report record is not modelled.
