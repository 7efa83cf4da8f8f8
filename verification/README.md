# A verified model of the RISC-V pipeline simulator

The simulator runs a five-stage in-order pipeline in front of two translation buffers (TLBs) that walk a
two-level page table, a two-way write-back data cache, a direct-mapped instruction cache, and a memory
whose accesses take several cycles. This project models those parts in Dafny and proves that each layer
agrees with something much simpler: the pipeline with a machine that executes one instruction at a time,
a translation with a pure page-table lookup, each cache with flat memory, and the table of pending accesses
with a memory that answers after its latency. The pieces are then put together: from power-on, through page walks,
cache fills, write-backs and replays, the whole machine runs the sequential program.

## Layout

Every component has a file of functions on values, and the parts the simulator updates in place also have a
class whose methods are proved equal to those functions. The theorems are about the functions, so through
the method contracts they hold of the classes.

| files | contents |
|---|---|
| `Words.dfy` | bytes, little-endian words, shifts and masks |
| `Memory.dfy`, `MemoryUnit.dfy`, `MemoryProofs.dfy`, `MemoryCounts.dfy` | memory with latency, its pending table and its counters |
| `Tlb.dfy`, `TlbAddresses.dfy`, `TlbProofs.dfy` | the resumable page walk, where it reads, and its translation buffer |
| `Cache.dfy`, `CacheUnit.dfy`, `CacheProofs.dfy` | both caches; addresses split and rejoined |
| `CacheRefinement.dfy`, `CacheSessions.dfy` | flat memory refined, step by step and over whole runs |
| `CacheDepartures.dfy`, `FetchDepartures.dfy` | where the caches do not refine it, and exactly when |
| `Predictor.dfy`, `Jal.dfy` | the branch predictor; `jal` |
| `Pipeline.dfy`, `PipelineProofs.dfy`, `PipelineHistory.dfy` | the five stages; refinement of the sequential machine; what the predictor learns |
| `PipelineFlow.dfy`, `Encodings.dfy` | when decode issues and how far a run gets; the instruction formats |
| `PipelineStalls.dfy`, `RiscvHandlers.dfy` | refinement through stalls and replays; the source's loads, stores and `addi` run twice |
| `Core.dfy`, `Simulator.dfy` | pipeline, TLBs, caches and memory together: as functions, and as a class |
| `Traffic.dfy`, `SharedWalk.dfy`, `SharedCache.dfy` | two stages' requests in one pending table; a walk and a cache access next to the other stage's |
| `CacheBeside.dfy` | a cache request answered at once while another waits in the same cache |
| `MachineState.dfy`, `MachineData.dfy`, `MachineBehind.dfy`, `MachineFetch.dfy`, `CoreProofs.dfy` | the whole machine's invariant and one cycle of it |
| `MachineRuns.dfy` | whole runs from power-on |
| `FetchTiming.dfy`, `MachineBoot.dfy`, `MachineMiss.dfy` | how long a fetch takes; the runs that reach the first instruction, and that a missing load makes |
| `LoadPath.dfy`, `MachineLoad.dfy` | how long a load that misses everywhere takes |

## How to read the model

- A 64-bit value is a `Word`, eight bytes, lowest first. Addresses are natural numbers; the virtual and physical addresses
  handed to the TLB and the caches are reduced to 32 bits where the code casts them.
- `exit(1)` is an `Abort` outcome. A write past the end of the row array is a `Wild` outcome.
- Instruction handlers are one function of the instruction, its pc and its operands, giving the next pc
  and an effect. Pipeline and sequential machine use the same one. It is a parameter everywhere.
- A stage that does not set a field of its new register leaves the current value there, because the loop copies
  new registers to current ones and keeps both between cycles.
- An `Image` is what memory holds at the start and which of its 8-byte blocks are text: the program and the page tables,
  which nothing stores to. A `Phase` says what a stage waits for: nothing, a page walk, or a block. A round is a cycle, or
  the two cycles in which a stalled access is replayed.
- Locals the code leaves unset appear as `junk` parameters; every theorem holds for all of them.

## Where the code departs from its intent

The code is modelled as it is. Each departure has a lemma that says exactly when the expected behaviour holds.

| departure | exact condition |
|---|---|
| a store hit does not mark its row dirty, and a hit in way 1 writes way 0 | `CacheDepartures.StoreHitAnsweredIff` |
| a load or short store that misses inside a block asks memory for an unaligned block | `CacheDepartures.UnalignedMissAnsweredIff` |
| a load or short store with a dirty victim needs two accesses in one stage | `CacheDepartures.DirtyVictimAnsweredIff` |
| a short store miss chooses its way twice | `CacheDepartures.PartStoreWildIff`, `CacheDepartures.AlignedPartStoreAnsweredIff` |
| a fetch redirected while a block is on its way is taken for that block's follow-up | `FetchDepartures.RedirectServedIff`, `FetchDepartures.RedirectAnsweredIff` |
| a fetch redirected while its page walk is on its way goes on with that walk | `FetchDepartures.RedirectedWalkAnsweredIff` |
| a write-back from way 1 rejoins tag and row number, not tag and set | `CacheProofs.WayOneWriteBackExactIff` |
| the walk stops the program for most addresses | `TlbProofs.WalkEndsIff` |
| a first-level entry's table address loses its upper bits | `TlbProofs.CodeWalkIsPureIff` |
| an entry that lies outside memory is whatever the unset local held | `TlbProofs.RefusedWordIsJunk` |
| a second request for a live address hides the first | `MemoryProofs.AddKeepsLookupIff` |
| a decode stall overwrites the pc of a mispredict | `PipelineProofs.MispredictRedirectsIff` |
| a fetch waiting for its translation leaves D in place | `PipelineProofs.FetchTlbStallKeepsPathIff` |
| register 0 is forwarded | `PipelineProofs.ZeroRegisterExactIff` |
| a zero word ends execute before its mispredict check | `PipelineProofs.ZeroWordKeepsPathIff` |
| a short load keeps old upper bytes | `PipelineProofs.LoadExactIff` |
| a store waiting for the cache lets its successor retire | `PipelineProofs.YoungerRetiresFirstIff` |
| both are then run again | `RiscvHandlers.PairRepeatsIff`, with `PipelineStalls.PairIsHarmless` for any handlers |
| a stalled load is replayed and then run again | `RiscvHandlers.LoadRepeatsIff`, with `PipelineStalls.RepeatIsHarmless` for any handlers |
| an access that stalls behind a waiting store replaces its replay | `PipelineStalls.StoreKeptIff` |

The comment at `src/cache.c:9-14` describes `read_access` as returning a row index and a 64-bit stall marker; the
code returns a status byte and stores the value through a pointer, and the model follows the code.

## Model

| member | source | states |
|---|---|---|
| `PipelineProofs.PipelineRefines` | src/riscv_virtualizer.c:997-1247 | over every run without the departures the executed pcs are exactly the sequential machine's, in order, none lost, repeated or from a wrong path, whatever the predictor holds for nonzero words; draining W then M gives its registers and memory after as many steps |
| `PipelineFlow.SmoothRunGetsOn` | src/riscv_virtualizer.c:997-1247 | the same runs get on: while fetch hits, whatever the hazards and mispredictions, every three cycles execute an instruction, from the fourth on if D starts empty, and the sequential machine gets as far |
| `PipelineFlow.OneInThree` | src/riscv_virtualizer.c:1026-1140 | for any handlers and any state between stalls, n cycles in which fetch hits and accesses complete execute at least (n - w) / 3 instructions, w the at most 3 cycles until the first |
| `PipelineFlow.OneEachCycle` | src/riscv_virtualizer.c:1026-1140 | a full pipeline without hazards and mispredictions executes one in every cycle |
| `PipelineFlow.DecodeIssuesIff` | src/riscv_virtualizer.c:1068-1099 | for every outcome of the memory system, the instruction in D is in X after the cycle, with its pc, prediction and registers, exactly when X writes none of its sources, nor register 0 when it has one source, and no load in M names one of its registers |
| `PipelineFlow.FlushesIff` | src/riscv_virtualizer.c:1127-1135 | what is behind an executed instruction is flushed exactly when its next pc is not the one predicted |
| `PipelineFlow.EffectReachesM` | src/riscv_virtualizer.c:1104-1140 | M holds exactly what the executed instruction asked for, at its pc, and asks for nothing when none was executed |
| `PipelineFlow.StallNames` | src/riscv_virtualizer.c:1142-1238 | the stall W reports is 1 to 5 exactly for the cache, the translation of a load, of a store, and an access spent on the translation of a load, of a store |
| `PipelineProofs.ClearProgramRefines` | src/riscv_virtualizer.c:997-1247 | the same for every program no instruction of which writes register 0, with no condition on what is forwarded |
| `PipelineProofs.ZeroSafeAlways` | src/riscv_virtualizer.c:14-43 | over every run from a pipeline with no write to register 0 in it, for every outcome of TLBs and caches, if no fetched instruction writes register 0 then it always reads as zero |
| `PipelineProofs.ZeroWordKeepsPathIff` | src/riscv_virtualizer.c:1127-1135 | after a zero word execution goes on at the next word exactly when that is what was predicted |
| `PipelineProofs.PredictionReachesX` | src/riscv_virtualizer.c:1018-1101 | the prediction an instruction carries in X is the table's at the cycle it was fetched |
| `PipelineProofs.StaleTableLeavesPath` | src/branch_predictor.c:24-30 | with an entry left over from another program, zero words at 0 lead to 64 and not to 4 |
| `PipelineProofs.CycleRefines` | src/riscv_sim_framework.c:463-487 | a cycle is one step of the sequential machine when execute runs an instruction and none otherwise, and keeps the invariant |
| `PipelineStalls.StallsRefine` | src/riscv_virtualizer.c:1104-1239 | refinement through any number of data-side stalls, of loads and stores, whatever completes behind a waiting store, a register write, a load or a store that takes turns with it: the drained pipeline is the sequential machine after n steps, or at most two instructions that are run again short of it, and each stall costs at most two repeated instructions |
| `PipelineStalls.StallRewinds` | src/riscv_virtualizer.c:1105-1114 | two cycles of a stall take the drained machine back to the stalled instruction, with registers and memory as if its access were done, and with the register write or load done as well that a waiting store let past, whatever the load brought |
| `PipelineStalls.TurnsEnd` | src/riscv_virtualizer.c:1221-1233 | two stores that wait for the cache are presented in turn, and however long it takes, when one completes the machine is back at the other with both done, the other last |
| `PipelineStalls.RepeatIsHarmless` | src/riscv_virtualizer.c:1105-1114 | a store, or a load that does not overwrite a register it reads, leaves the machine the same when run twice |
| `PipelineStalls.PairIsHarmless` | src/riscv_virtualizer.c:1221-1233 | for any handlers, a store and the register write or load let past it may be run again, whatever value the register was given, when that register is a source of neither |
| `PipelineStalls.StoresAreHarmless` | src/riscv_virtualizer.c:1221-1233 | for any handlers, a store and the store behind it, done in the wrong order, reach the sequential state when both are run again |
| `PipelineStalls.StoreKeptIff` | src/riscv_virtualizer.c:1221-1233 | for every outcome of an access behind a waiting store: the store is presented again exactly when the access completed or is a store that waits for the cache, too; otherwise it is lost, and the drained machine is back at the access with the store not done |
| `RiscvHandlers.LoadRepeatsIff` | src/riscv_virtualizer.c:101-240 | a load of the instruction set gives the same machine when run twice, from every machine over a flat byte memory, exactly when it does not overwrite its address register |
| `RiscvHandlers.PairRepeatsIff` | src/riscv_virtualizer.c:376-430 | for every store and every `addi` let past it: both run again reach the sequential state, from every machine over a flat byte memory, exactly when the `addi` overwrites neither its own source nor one of the store's, or adds zero to its own register |
| `RiscvHandlers.LoadTwiceDiffers` | src/riscv_virtualizer.c:101-240 | the machine on which a load that overwrites its address register gives another register when run twice |
| `RiscvHandlers.DependentDiffers` | src/riscv_virtualizer.c:376-430 | an `addi` to a source of the store makes some machine miss the sequential state |
| `RiscvHandlers.SelfAddDiffers` | src/riscv_virtualizer.c:376-430 | so does an `addi` of a nonzero constant to its own register |
| `PipelineProofs.ForwardingCorrect` | src/riscv_virtualizer.c:14-43 | in every reachable state, for every outcome of TLBs and caches, an operand decode issues is the register's value once X, M and W have retired |
| `PipelineProofs.OperandIsRetired` | src/riscv_virtualizer.c:1068-1099 | the same in any state with the run invariant |
| `PipelineProofs.ZeroRegisterExactIff` | src/riscv_virtualizer.c:14-25 | register 0 reads as zero exactly when the youngest write to it still in M or W, if any, is of the value zero |
| `PipelineProofs.ShapeAlways` | src/riscv_virtualizer.c:1142-1239 | an empty W names register 0 and holds zero, W is tainted only while it reports a stall, and decoded registers match their instruction, over every run |
| `PipelineProofs.LoadExactIff` | src/riscv_virtualizer.c:1180-1196 | a load leaves the extended value exactly when it fills the word, is negative and sign-extended, or the old upper bytes are zero |
| `PipelineProofs.LoadLeaves` | src/riscv_virtualizer.c:1180-1196 | the word any load leaves: its bytes, and above them ones if it sign-extends and their top bit, or for four bytes anything in the old upper half, is set, and else the old bytes |
| `PipelineProofs.MispredictRedirectsIff` | src/riscv_virtualizer.c:1091-1135 | after a mispredict execution continues at the computed pc exactly when decode does not wait in the same cycle |
| `PipelineProofs.FetchTlbStallKeepsPathIff` | src/riscv_virtualizer.c:1001-1009 | a fetch stalled in translation keeps the path exactly when D is empty or holds a correctly predicted self-jump |
| `PipelineProofs.ReplayIntegrity` | src/riscv_virtualizer.c:1145-1219 | a stalled load, or a store waiting for translation, is presented again exactly two cycles later with only its status changed; nothing executes or retires in between |
| `PipelineProofs.YoungerRetiresFirstIff` | src/riscv_virtualizer.c:1221-1233 | a younger register write retires before a stalled access exactly when that is a store waiting for the cache |
| `MachineRuns.MachineRefinesFromPowerOn` | src/riscv_sim_framework.c:455-488 | from power-on, TLBs and caches empty, for every latency and every image whose page tables are text and agree over each 16 KB superpage: any run of orderly rounds, page walks, fills, write-backs, replays, and accesses done behind a waiting store included, never aborts and follows the sequential machine from pc 0 with zero registers on flat memory and the pure page-table lookup; each stall costs at most two repeated instructions |
| `MachineRuns.ClearProgramRefinesFromPowerOn` | src/riscv_sim_framework.c:455-488 | the same, bound on repeated instructions included, for programs that write register 0 nowhere, with no condition on what is forwarded for it |
| `MachineRuns.MachineRefines` | src/riscv_sim_framework.c:455-488 | the same from any state that follows a sequential machine, in the middle of any walk, fill or replay |
| `MachineRuns.SimulateRefines` | src/riscv_sim_framework.c:455-488 | the simulator's loop from power-on, breakpoint check included, ends where the sequential machine does when the cycles it runs make up orderly rounds; if it stops between the two cycles of a replay, that holds of the state before the last cycle, which keeps the machine sound |
| `MachineRuns.SimulateRuns` | src/riscv_sim_framework.c:455-488 | the loop is the run of as many cycles as come before the pc names the bytes 73 00 10 00, the abort or the end of the inputs |
| `Core.SimulateByBytes` | src/riscv_sim_framework.c:463-467 | with the bytes 73 00 10 00 at the pc the loop runs no cycle and changes nothing; with any other bytes, or a pc outside memory, it runs one |
| `Core.BreakpointIff` | src/riscv_sim_framework.c:429-466 | the word compared with the breakpoint instruction is equal exactly for those four bytes |
| `Core.PowerOnIsEmpty` | src/riscv_virtualizer.c:969-970 | 512 instruction rows of 16 bytes, two ways of 2048 data rows of 8, eight entries in each TLB, four memory slots, none of them in use, pc and registers zero |
| `MachineBoot.BootIsOrderly` | src/riscv_virtualizer.c:997-1024 | from power-on, for all latencies and unset locals, if address 0 translates to the base of a text block, every cycle is orderly until the word there is in D, and it is there within 3L + 3 cycles for read latency L |
| `MachineBoot.StartIsOrderly` | src/riscv_virtualizer.c:997-1024 | the same for any pc, from an empty pipeline, at any point of the walk or the fill, within the time left from there |
| `FetchTiming.FetchProgresses` | src/riscv_virtualizer.c:997-1024 | whatever fetch waits for and whatever the memory stage does, every orderly presentation fetches the word or brings it nearer, from 3L + 3 presentations for a fetch that misses everywhere down to none |
| `MachineMiss.LoadIsOrderly` | src/riscv_virtualizer.c:1160-1200 | from any point of a load's walk or fill, as many rounds as one likes in which fetch hits are orderly, until one in which the load is answered |
| `CoreProofs.CycleSound` | src/riscv_sim_framework.c:463-487 | one orderly cycle of pipeline, TLBs, caches and memory does not abort, keeps the whole invariant, and tells the pipeline the truth: the program's word, flat memory's bytes, or a stall that changes neither |
| `MachineFetch.FetchStep` | src/riscv_virtualizer.c:997-1024 | whatever fetch waits for, its access returns the program's word at the translated pc or leaves a walk or a fill in flight with its one request, and keeps the memory stage's request |
| `MachineData.DataStep` | src/riscv_virtualizer.c:1160-1233 | whatever the memory stage waits for, its access returns or changes exactly the flat memory bytes at the translated address, or leaves a walk, fill or write-back in flight and flat memory as it was, and keeps fetch's request |
| `MachineBehind.BehindStep` | src/riscv_virtualizer.c:1160-1233 | an access let past a waiting store that hits its translation and needs nothing from memory is done as on flat memory and leaves the store's fill or write-back in flight as it was |
| `CacheBeside.Beside` | src/cache.c:80-236 | with a fill or write-back in flight, a load that hits, a store that hits a dirty row of way 0, or a whole-block store into a clean row of another set is answered as flat memory, and the session goes on |
| `SharedWalk.WalkStep` | src/TLB.c:11-80 | one presentation of a walk next to the other stage's request moves it on or ends it with the pure lookup's address, and leaves that request and memory alone |
| `SharedCache.CacheStep` | src/cache.c:31-236 | one presentation to a cache next to the other stage's request is answered as flat memory and leaves that request alone |
| `SharedCache.PresentRows` | src/cache.c:31-236 | whatever is asked, a row keeps its block or is taken for the block asked for, and only stores make rows dirty |
| `Traffic.ReadShared` | src/riscv_sim_framework.c:233-267 | with at most the other stage's request live, a read completes at once or becomes the stage's own request, found by its address |
| `Traffic.WriteShared` | src/riscv_sim_framework.c:288-317 | the same for a write, which changes exactly its bytes |
| `Traffic.PollShared` | src/riscv_sim_framework.c:319-336 | a poll answers for the stage's own request, exactly from its end cycle on, and leaves the other's |
| `Traffic.TickShared` | src/riscv_sim_framework.c:338-347 | the end of a cycle retires exactly what completed |
| `Traffic.Room` | src/riscv_sim_framework.c:176-193 | two stages' requests always leave a free slot |
| `LoadPath.LoadCompletesOnTime` | src/riscv_virtualizer.c:1160-1200 | a load that misses TLB and cache stalls at every presentation before its (3*ceil(L/2)+3)-th and there returns flat memory's bytes, for every latency L and any other traffic on other addresses that leaves a free slot whenever the load asks memory anew |
| `LoadPath.TripCompletes` | src/TLB.c:11-80 | the same from any point of the walk or the fill, with the presentations left from there |
| `MachineLoad.LoadCompletesInMachine` | src/riscv_sim_framework.c:463-487 | on the whole machine, with fetch running beside it, the load answers exactly in cycle t + 6*ceil(L/2) + 4 |
| `MachineLoad.TwoCyclesReplay` | src/riscv_virtualizer.c:1105-1114 | two cycles of the whole machine re-present a stalled load, or a store waiting for its translation, with the TLB, its held first-level entry and the data cache as the last presentation left them |
| `MachineLoad.MachineIsTrip` | src/riscv_sim_framework.c:463-487 | over every run of such pairs of cycles, the machine's answer is the answer of the sequence of presentations |
| `MachineLoad.FetchIsTraffic` | src/riscv_virtualizer.c:997-1017 | whatever a fetch does to memory is a sequence of reads and polls |
| `TlbProofs.WalkRefinesPureWalk` | src/TLB.c:11-80 | presented each cycle with the status it returned, a missing address completes at exactly the (2L+2)-th presentation, cycle c + 2L + 1, for every latency, any traffic on other addresses and any entries: with the pure two-level lookup's address, or, when an entry has bit 31 clear, with 0x80 and the table as it was, at the (L+2)-th when it is the first |
| `TlbProofs.RunFinishes` | src/TLB.c:11-58 | from any point of the walk: waits, then the address, 0x80 or the abort, exactly when the remaining presentations are used up |
| `TlbProofs.WalkEndsIff` | src/TLB.c:33-52 | over every walk, for any bytes: it ends in 0x80 with no entry changed exactly when one of the two words has bit 31 clear, in the abort exactly when both have it set and va >> 17 differs from (va >> 14) & 7, and in an address otherwise |
| `TlbProofs.CodeWalkIsPureIff` | src/TLB.c:12-56 | the lookup with the code's 32-bit table address is the pure lookup exactly when the first entry is invalid or its table lies below 2^32 |
| `TlbProofs.RefusedWordIsJunk` | src/TLB.c:41-52 | when the second entry lies outside memory the walk ends in an address exactly when the unset local's top byte has its top bit set |
| `TlbAddresses.WalkReadsAt` | src/TLB.c:12-46 | for any address, the first read is of ptbr + 4 * (va >> 22) modulo 2^32, the second of the table at the entry's low 20 bits, indexed by the low eight of va's middle ten |
| `TlbProofs.AdmittedIsLow` | src/TLB.c:39-52 | addresses that pass lie below 2^20, so the 8-bit second-level index loses nothing |
| `TlbProofs.AnswersAreLow` | src/TLB.c:60-80 | from any table whose valid entries lie at their own page, every hit and every finished walk is for an address below 2^20, and the table stays so |
| `TlbProofs.AskIsPureWalk` | src/TLB.c:12-56 | the entries the walk reads, shifted and masked as the code does, rejoin to the pure lookup's address |
| `TlbProofs.EveryAnswerIsPureWalk` | src/TLB.c:60-80 | over every run of translations of any addresses, entries with and without their valid bit, with page tables unchanged: every hit and every finished walk is for an address below 2^20 and gives what a fresh lookup would, 0x80 for an admitted address means the lookup finds none, and only addresses the walk does not admit abort; nothing is asked of an address that hits when each superpage's entries are valid together |
| `TlbProofs.SessionStep` | src/TLB.c:60-80 | one presentation, hit or miss or resumed, of any address, keeps the buffer coherent and answers as the pure lookup, below 2^20, says with 0x80 that there is no translation, or aborts |
| `CacheSessions.RunRefinesFlatMemory` | src/cache.c:31-236 | over every run of loads, stores, stalls, follow-ups and other stages' traffic, completed loads return flat memory, completed stores change exactly their bytes, stalls change nothing, and no two valid ways of a set hold the same tag |
| `CacheSessions.PresentationAnswered` | src/cache.c:80-236 | the step of that run, including 8-byte store misses that write back a dirty victim over several cycles |
| `CacheSessions.PresentationTimed` | src/cache.c:80-236 | it completes exactly when it hits, needs nothing from memory, or what it waits for has ended, its latency after it was issued; else it stalls, with code 2 exactly when its stage's access was spent on the translation |
| `CacheSessions.MissTakesOneRow` | src/cache.c:34-37 | at every latency a missing load takes the row of a free way, way 0 first, with both taken way 0's unless that is dirty and way 1 clean, for its block or, while that is on its way, cleared, and changes no other row |
| `CacheSessions.InstructionFillInFlight` | src/cache.c:69-138 | over every run every valid instruction row but the one being filled equals memory, and a completed access returns memory's bytes with the fill over |
| `CacheSessions.InstructionFlatIsMemory` | src/cache.c:93-100 | the instruction cache's flat memory is memory itself |
| `CacheRefinement.DirtyVictimIsWayZero` | src/cache.c:34-52 | the chosen victim is dirty exactly when both ways are; it is then way 0 and its write-back address is the base of its block |
| `CacheRefinement.WrittenBack` | src/cache.c:185-197 | writing a row to its base address leaves flat memory unchanged and the row in step with memory |
| `CacheRefinement.Load` | src/cache.c:57-76 | filling a row with a block that is nowhere resident keeps flat memory and single residence |
| `CacheRefinement.Drop` | src/cache.c:58-61 | clearing a row that agrees with memory keeps flat memory |
| `CacheRefinement.Patch` | src/cache.c:202-206 | writing into a row and marking it dirty changes exactly those bytes of flat memory |
| `CacheRefinement.HitReadsFlat` | src/cache.c:102-117 | a valid row with the right tag holds flat memory's bytes |
| `CacheProofs.ShiftsSplitAddress` | src/cache.c:82-85 | the 64-bit shifts take an address apart into the quotient and remainders the model uses |
| `CacheProofs.WayZeroWriteBackExact` | src/cache.c:45 | for way 0 tag and row number rejoin to the base address of the block |
| `CacheProofs.WayOneWriteBackExactIff` | src/cache.c:189 | for way 1 they do exactly when the tag is odd |
| `CacheProofs.ResidentAnswers` | src/cache.c:91-152 | a resident row answers any read within it with its bytes and nothing changes; eight bytes across the end of an instruction block count as a miss, across the end of a data block they leave the row; other sizes end the program |
| `CacheProofs.Refusals` | src/cache.c:86-216 | a read off a four-byte boundary ends the program; a write to the instruction cache waits and changes nothing |
| `CacheProofs.WriteBackPolled` | src/cache.c:44-56 | a miss presented again over a dirty victim changes nothing while its write-back has not ended, and then cleans the row; an ended read of the same address is copied through a null pointer |
| `CacheDepartures.StoreHitAnsweredIff` | src/cache.c:224-232 | a store hit acts as a store to flat memory exactly when the row is in way 0 and dirty, or the bytes stored are there already in both ways |
| `CacheDepartures.CleanHitAnsweredIff` | src/cache.c:224-227 | on a clean way-0 row, exactly when the row holds the bytes already |
| `CacheDepartures.WayOneHitAnsweredIff` | src/cache.c:229-232 | on a way-1 row, exactly when it and a valid way 0 hold the bytes already |
| `CacheDepartures.UnalignedMissAnsweredIff` | src/cache.c:60-73 | a load or short store that misses inside a block acts as on flat memory exactly when it does not claim a valid way-1 row to store and the victim's old bytes, first one cleared, make up the same block outside the stored bytes |
| `CacheDepartures.DirtyVictimAnsweredIff` | src/cache.c:44-62 | a load or short store miss with a dirty victim is answered exactly when writes take no time and the cleared row, outside the stored bytes, happens to be the block |
| `CacheDepartures.PartStoreWildIff` | src/cache.c:165-178 | a short store miss leaves the row array exactly when its victim is a valid way-1 row |
| `CacheDepartures.AlignedPartStoreAnsweredIff` | src/cache.c:165-178 | at the base of its block, with a clean victim, a short store is answered exactly when it does not leave the row array |
| `FetchDepartures.RedirectAnsweredIff` | src/cache.c:69-77 | a fetch presented at another address than the fill's keeps the session exactly when: on a hit, the given-up row claims nothing or still holds its block; on a miss, memory does not answer for the address, or answers with the block and the given-up row is that row or harmless |
| `FetchDepartures.RedirectServedIff` | src/cache.c:69-117 | it is answered with the program's word and leaves the cache sound exactly when it hits with the given-up row harmless, or memory answers with the whole block |
| `FetchDepartures.RedirectedMissWaitsForEver` | src/riscv_virtualizer.c:1010-1017 | a redirected fetch whose target misses stalls after any run of memory calls in which nobody asks for that address |
| `FetchDepartures.RedirectedWalkAnsweredIff` | src/TLB.c:11-58 | a walk resumed for another address that translates goes on to that address's own translation exactly when its second read is not yet under way or the page is the same |
| `FetchDepartures.RedirectedWalkWaitsForEver` | src/TLB.c:41-46 | otherwise it waits after any run of memory calls in which nobody asks for the new page's entry |
| `FetchDepartures.AbandonedFillReadsZeros` | src/cache.c:93-138 | after a fill is begun over a valid row and given up, in every later cache in which the row is as the fill left it, any access to the row's old block answers zeros |
| `MemoryProofs.ReadCompletesAtLatency` | src/riscv_sim_framework.c:233-336 | a read polls complete exactly from its issue cycle plus the latency on, and then returns memory as of completion, through any calls for other addresses |
| `MemoryProofs.WriteCompletesAtLatency` | src/riscv_sim_framework.c:288-336 | a write changes exactly its bytes at once and polls complete exactly from issue plus latency on |
| `MemoryProofs.WriteQueues` | src/riscv_sim_framework.c:301-317 | a write leaves a tracked slot that ends at issue plus latency |
| `MemoryProofs.AddKeepsLookupIff` | src/riscv_sim_framework.c:176-193 | lookups by address alone stay right exactly when no live slot has the address already |
| `MemoryProofs.RunKeepsLookup` | src/riscv_sim_framework.c:176-347 | over every run that adds no live address, no slot below a live one has its address, stale or live |
| `MemoryProofs.RunKeepsTracked` | src/riscv_sim_framework.c:319-347 | the slot a lookup finds is the request's own, through any calls for other addresses |
| `MemoryProofs.ReissueInCompletionCycleIsShadowed` | src/riscv_sim_framework.c:319-336 | for every table, size and latency, a request reissued in the cycle its predecessor completed, and queued behind it, is reported done a cycle later, without data |
| `MemoryProofs.FourSlotsSuffice` | src/riscv_sim_framework.c:176-193 | if each stage issues only after its last request was reported complete, a stage about to issue always finds a free slot |
| `MemoryProofs.CapacityFromReset` | src/riscv_sim_framework.c:44 | the same from reset, for every run |
| `MemoryProofs.BandwidthConserved` | src/riscv_sim_framework.c:233-317 | at every cycle boundary of any run from reset: writes <= cycles, reads + writes <= 2 * cycles, read bytes <= 16 * reads, written bytes <= 8 * writes |
| `MemoryProofs.RunKeepsBandwidth` | src/riscv_sim_framework.c:338-347 | the invariant behind it, with the accesses of the current cycle counted by stage |
| `MemoryCounts.RunCounts` | src/riscv_sim_framework.c:233-317 | over any run the four counters are the number and the total size of the reads and writes that are whole, aligned, in memory, and the first of the cycle from a stage that may make them |
| `PipelineHistory.PipelinePredictsHistory` | src/riscv_virtualizer.c:1131-1139 | over every run of the pipeline from an untrained table, for every outcome of the memory system, a prediction other than the next word is a target that an instruction executed at that address jumped to earlier, and counters stay in 0..3 |
| `PipelineHistory.RunLearns` | src/riscv_virtualizer.c:1137-1139 | over every run the table is the one taught by exactly the jumps executed, squashed instructions teaching nothing |
| `Predictor.PredictionsAreHistory` | src/branch_predictor.c:24-30 | after any sequence of reported jumps a prediction other than the next word is the target of one of them from that address, and counters stay in 0..3 |
| `Predictor.LoopIsLearned` | src/branch_predictor.c:24-52 | the converse: after any jumps, a backward jump whose branch and target agree in the low five bits is predicted the next time, unless the target's slot belongs to a branch at the target |
| `Predictor.UpdateTeaches` | src/branch_predictor.c:24-52 | where every address is predicted to go after any report: a new entry jumps only backward, an existing one when its counter is above 1 after moving, and nothing changes at other slots |
| `Predictor.ReportMovesCounter` | src/branch_predictor.c:15-46 | a report for an existing entry moves its counter by one in the reported direction, within 0 and 3, and changes nothing else |
| `Predictor.LearnedIsRecorded` | src/branch_predictor.c:40-52 | every entry that can predict a jump was recorded by one, over every sequence of updates the execute stage makes |
| `Predictor.TakenReportsInventHistory` | src/branch_predictor.c:40-52 | this rests on execute always reporting not taken: two taken reports make the table predict a jump nobody made |
| `Jal.JalRoundTrip` | src/riscv_virtualizer.c:71-83 | for every pc and every encodable offset, the handler on the J-type encoding writes pc + 4 to the encoded register and jumps to pc + offset mod 2^64 |
| `Jal.JalFieldsCovered` | src/riscv_virtualizer.c:74-81 | every immediate field is the encoding of the offset it decodes to |
| `Jal.ReachableIsRange` | src/riscv_virtualizer.c:77-82 | the encodable offsets are the even ones in [-2^20, 2^20) |
| `Encodings.DecodesR` | src/riscv_virtualizer.c:1036-1067 | decode finds in the manual's R-type encoding of any fields exactly rs1, rs2 and rd |
| `Encodings.DecodesI` | src/riscv_virtualizer.c:1036-1067 | for I-type, and every opcode of no other format, rs1 and rd |
| `Encodings.DecodesS` | src/riscv_virtualizer.c:1036-1067 | for S-type, rs1 and rs2 |
| `Encodings.DecodesB` | src/riscv_virtualizer.c:1036-1067 | for B-type, rs1 and rs2 |
| `Encodings.DecodesU` | src/riscv_virtualizer.c:1036-1067 | for U-type, rd alone |
| `Encodings.DecodesJ` | src/riscv_virtualizer.c:1036-1067 | for J-type, rd alone |
| `Encodings.LoadEncoded` | src/riscv_virtualizer.c:101-240 | the handler of any encoded load asks for the register, rs1 + imm mod 2^64, and the size and extension of its mnemonic |
| `Encodings.StoreEncoded` | src/riscv_virtualizer.c:328-410 | the handler of any encoded store writes the low bytes of rs2 at rs1 + imm mod 2^64 |
| `Encodings.AddiEncoded` | src/riscv_virtualizer.c:422-430 | the handler of any encoded addi writes rs1 + imm mod 2^64 |
| `MemoryUnits.MemoryUnit.constructor` | src/riscv_sim_framework.c:660-675 | all slots free, counters zero |
| `MemoryUnits.MemoryUnit.AddPending` | src/riscv_sim_framework.c:176-193 | the search loop fills the first free slot, or none and says so |
| `MemoryUnits.MemoryUnit.Read` | src/riscv_sim_framework.c:233-267 | in place, exactly `Memory.Read`: refusals, latency 0 and queued reads |
| `MemoryUnits.MemoryUnit.Write` | src/riscv_sim_framework.c:288-317 | in place, exactly `Memory.Write` |
| `MemoryUnits.MemoryUnit.Status` | src/riscv_sim_framework.c:319-336 | the search loop stops at the first slot with the address, exactly `Memory.Status` |
| `MemoryUnits.MemoryUnit.EndCycle` | src/riscv_sim_framework.c:338-347 | frees exactly the completed slots and opens the next cycle |
| `TlbUnits.TlbUnit.UpdateEntry` | src/TLB.c:11-58 | in place, exactly `Tlb.Update` on table, held entry and memory |
| `TlbUnits.TlbUnit.GetAddress` | src/TLB.c:60-80 | in place, exactly `Tlb.GetAddress` |
| `CacheUnits.CacheUnit.EvictRead` | src/cache.c:31-78 | in place, exactly `Cache.EvictRead` on rows and memory |
| `CacheUnits.CacheUnit.ReadAccess` | src/cache.c:80-152 | in place, exactly `Cache.ReadAccess` |
| `CacheUnits.CacheUnit.EvictWrite` | src/cache.c:154-211 | in place, exactly `Cache.EvictWrite` |
| `CacheUnits.CacheUnit.WriteAccess` | src/cache.c:213-236 | in place, exactly `Cache.WriteAccess` |
| `Predictor.PredictorUnit.UpdateBht` | src/branch_predictor.c:15-22 | in place, the counter moves by one within 0..3 |
| `Predictor.PredictorUnit.PredictAddress` | src/branch_predictor.c:24-30 | exactly `Predictor.Predict` |
| `Predictor.PredictorUnit.UpdateEntry` | src/branch_predictor.c:40-52 | in place, exactly `Predictor.Update` |
| `Simulators.SignExtend` | src/riscv_virtualizer.c:1192-1196 | the loop keeps the low bytes and sets all others |
| `Simulators.Simulator.constructor` | src/riscv_sim_framework.c:660-675 | the machine at power-on, exactly `Core.PowerOn`: registers zero, TLBs and caches empty |
| `Simulators.Simulator.StageWriteback` | src/riscv_virtualizer.c:1241-1247 | in place, exactly `Pipeline.Writeback` |
| `Simulators.Simulator.StageMemory` | src/riscv_virtualizer.c:1142-1239 | fills the new W and updates TLB, cache and memory in place, exactly as `Core.DataPart` and `Pipeline.MemoryStage` |
| `Simulators.Simulator.StageExecute` | src/riscv_virtualizer.c:1104-1140 | fills the new M, moves the pc and trains the predictor, exactly `Pipeline.ExecuteStage` |
| `Simulators.Simulator.ForwardedRead` | src/riscv_virtualizer.c:14-43 | waits, or gives exactly `Pipeline.Operand` |
| `Simulators.Simulator.StageDecode` | src/riscv_virtualizer.c:1026-1101 | fills the new X and moves the pc, exactly `Pipeline.DecodeStage` |
| `Simulators.Simulator.StageFetch` | src/riscv_virtualizer.c:997-1024 | fills the new D, moves the pc and updates TLB, cache and memory, exactly as `Core.FetchPart` and `Pipeline.FetchStage` |
| `Simulators.Simulator.RegisterWrite` | src/riscv_sim_framework.c:385-392 | writes the register modulo 32, register 0 included, and no other |
| `Simulators.Simulator.RegisterRead` | src/riscv_sim_framework.c:366-383 | reads the register modulo 32, zero for register 0 |
| `Simulators.Simulator.RunCycle` | src/riscv_sim_framework.c:468-486 | the stages in their order, on shared memory, make exactly one `Core.Cycle` |
| `Simulators.Simulator.Run` | src/riscv_sim_framework.c:455-488 | the loop is exactly `Core.Simulate`: it stops at the breakpoint word, at an abort or after the given number of cycles |

## Left out

- The instruction handlers and dispatch tables (src/riscv_virtualizer.c:411-954) and the branch immediates
  (src/riscv_virtualizer.c:241-301): folded into the handler parameter; each is settled by reading one line,
  and several differ from the RISC-V manual.
- Command shell, file loading and dumping, option parsing and `main`: input, output and user interface.
- `construct_cache` and its floating-point logarithm: the geometry is a parameter, with 2^k sets.
- Code compiled out or unused: builds without `WRITEBACK`, `TWOWAY` or the pipeline, and `predict_address_BTFNT`.
- Contents of the new stage registers before the first cycle: taken equal to the current ones; the C locals are unset.
- Wrap-around of counters and of `address + size` in 64 bits: counters are unbounded, and callers pass 32-bit addresses.
- Page tables or code changed during a run: stores into text blocks are not orderly; self-modifying code is not modelled.
- The limit on register reads and writes per cycle: never reached, because the counters are never raised.
- PipelineProofs.PipelineRefines: covers cycles in which data accesses complete; PipelineStalls.StallsRefine adds stalled
  ones. Excluded are the departures listed above, each with its exact condition.
- PipelineStalls.StallsRefine: excludes stalled loads that overwrite their own source, and behind a waiting store
  a register write or load that depends on it, or an access that stalls and makes the code lose the store
  (RiscvHandlers.LoadRepeatsIff, RiscvHandlers.PairRepeatsIff, PipelineStalls.StoreKeptIff).
- MachineRuns.MachineRefines: an orderly round excludes, besides those, the cache and fetch departures: a miss inside a block,
  a dirty victim of a load or short store, a store hit on a clean or way-1 row, a fetch redirected during its fill or off
  its page during the second read of its walk, a fetch that misses its TLB with D full; also addresses with no
  translation, stores into text, and a request for the very address the other stage is waiting for. An access behind a
  waiting store must be answered at once (CacheBeside.AtOnce): one that misses would put a second request of the same
  stage next to the store's, and the cache is modelled with one request in flight.
- MachineBoot.BootIsOrderly: shows orderly rounds up to the first instruction, and MachineMiss.LoadIsOrderly while a load
  misses; whether rounds are orderly in general depends on the program, and is a hypothesis of the run theorems.
- RiscvHandlers.PairRepeatsIff: states the converse for `addi` behind a store; PipelineStalls.PairIsHarmless covers all
  handlers in the other direction.
