# A verified model of the CHERI eBPF backend

The repository runs eBPF programs on Morello so that an access through a pointer-like register
is authorised by a bounded capability. This project models, and proves properties of, the code
that decides which programs are translated and what the translated code can do:

- `Ebpf` is a small eBPF machine on flat 64-bit addresses (RFC 9669); `CapMachine` is the
  capability machine the emitted code runs on. Its registers hold an integer or a tagged
  capability with a region and an address, its memory holds untagged bytes, and an access
  outside the authorising region traps.
- `Operators` says what each 64-bit operation and condition means, bit by bit or over signed
  integers; `Opcodes` is the instruction set as a table of opcode bytes. Both machines and the loader
  are proved to be exactly these.
- `Contract` and `InPlace` are the backend's mutable register states. `Kinds` is the policy on
  register kinds, with its reference meaning as the meet over all control-flow paths. `Analysis`
  is the worklist that computes it and the translator that checks and emits; `Codegen` is the
  kind-directed lowering.
- `Soundness`, `Refinement`, `Isolation` and `Layout` are theorems about every run of every
  accepted program (provenance and non-interference hold for any code at all).
- `MayKinds` is the dual analysis, the join over all paths; `PointerReturn` uses it to decide which
  programs keep the addresses of their objects to themselves, and `Layout` proves that they do.
- `Straight`, `Suite` and `Verdicts` work out the verdict on each program of the accept/reject suite,
  from its bytes; `Stepping`, `Fixtures`, `StackFixtures` and `AccessFixtures` follow the bypass programs,
  the compiler-generated fixtures and the compiled access programs through their runs, on every
  context, stack and map value. `Jumps` treats programs on scalars alone, loops included.
- `Bytecode`, `HexText`, `ObjEmit`, `AsmText`, `Morello`, `DirectJit` and `TailJit` are the instruction
  codecs and the three small generators, the object emitter down to the text it writes; `Agreement`
  shows that the generators agree with each other and with the bytes they translate.
- `Words` holds the bit-field and little-endian arithmetic.

## Modelling choices

- The implementation of the policy is in the uBPF submodule, which is not part of this model. The
  rules are the ones the suite, its error texts and the notes state: R1 is the context and R10 the
  stack at entry; copies and 64-bit ADD/SUB keep a kind; a join keeps a capability kind only if all
  paths agree; loads need a capability base, stores a stack or map-value base and a scalar value;
  EXIT needs R0 not to be a capability kind. A scalar operation on a capability is refused unless
  it moves its address by a scalar (JIT_PLAN.md:67-69).
- The kind `Scalar` means that no authority is known. A register of that kind may hold a
  tagged capability at run time; an integer operation on it writes an integer.
- Unreached instructions are neither checked nor emitted. A jump out of the program is rejected by
  `Check`, which the loader does in the program.
- The stack size is symbolic. The prologue is its effect: the stack cleared, R1 and R10 bounded.
- A call to the configured helper leaves the map value's capability in R0 and unknown integers in
  R1-R5 (RFC 9669); any other call is rejected. The map value may be the context object, as in the
  test harness, so a map store may then change context bytes. The lookup never fails: a null
  return, which JIT_PLAN.md plans for the helper shim, is not modelled.
- Each root has one bounds id, so the abstract kind is the root alone; `InPlace` carries the id.
- A conditional jump may compare a capability-kind register: no text of the suite or the notes
  refuses it. It is the one computation on such a kind, beside moving its address, that `Check`
  admits; the guard below counts it among the integer uses.
- One claim of the notes does not hold of the policy they describe. docs/project_state.md:36 says a
  program that tries to return a capability-kind value is rejected, which blocks the pointer leak;
  with the join rule of the line before it two kinds of program get a stack address out:
  `JoinReturnsPointer` returns the stack pointer on one of two paths, `SumReturnsPointer` adds it to
  R0 after a join. `KeepsAddresses` decides from the rows of the join over all paths, before any
  run, whether some path returns a capability kind and whether some path uses one as an integer.
  If neither, no run depends on where its objects lie (`LayoutIndependent`). If none uses one, the
  result of a run depends on it exactly when its path leaves a capability kind in R0
  (`ReturnRevealsExactly`).

## Model

| member | source | states |
|---|---|---|
| Contract.RegState.constructor | workspace/cheri_jit_contract.h:20-24 | a fresh register state is a scalar naming no root |
| Contract.RegState.MarkScalar | workspace/cheri_jit_contract.h:26-32 | the state becomes a scalar: no source, bounds id 0, whatever it was |
| Contract.RegState.MarkCapability | workspace/cheri_jit_contract.h:34-41 | the state becomes a capability of the given source and bounds id |
| Contract.RegState.IsCapability | workspace/cheri_jit_contract.h:43-47 | true exactly when the state stands for a capability kind |
| InPlace.CopyState | docs/project_state.md:34 | a register copy takes over kind, source and bounds id |
| InPlace.MarkCall | docs/helper_map_capability_milestone.md:16-19 | after the map helper R0 is the map value with its bounds id, R1-R5 are scalars, R6-R10 keep kind and bounds id |
| InPlace.TransferInPlace | docs/project_state.md:34-36 | one instruction on the eleven mutable register states equals the transfer function on their kinds, bounds ids travel with the capabilities, and a map value gets the helper's bounds id |
| Kinds.MopAgrees | docs/project_state.md:35 | a register has a capability kind at an instruction exactly when every path reaching it leaves that same kind |
| Kinds.ExitRefused | workspace/test_cheri_translate_reject.c:226-230 | EXIT is refused exactly when every reaching path leaves one and the same capability kind in R0, and for no other reason |
| Kinds.LoadAdmitted | workspace/test_cheri_translate_reject.c:64-68 | a load is admitted exactly when every reaching path leaves one and the same capability kind in its base, and otherwise refused for that base |
| Kinds.StoreAdmitted | workspace/test_cheri_translate_reject.c:63-70 | a store of any width is admitted exactly when all paths leave the stack in its base or all leave a map value there, and its source is not one capability kind on all of them; a bad base is named before a bad source |
| Kinds.AluAdmittedExactly | JIT_PLAN.md:67-69 | a copy always passes, ADD and SUB exactly when the amount is not one capability kind on all paths, any other operation exactly when neither operand is |
| Kinds.OthersAdmitted | docs/helper_map_capability_milestone.md:88 | a call passes exactly for the configured helper, unknown opcodes never, constants and jumps always |
| Kinds.OutsideRefused | workspace/test_m2_jmp.c:125-128 | an instruction is refused for leaving the program exactly when falling through or jumping to pc + 1 + offset does |
| Kinds.NoMapValue | docs/helper_map_capability_milestone.md:88 | with no helper configured, no path of an accepted program ever produces a map-value kind |
| Kinds.MopEdge | docs/project_state.md:35 | the meet at a branch target never claims more than what an incoming edge brings |
| Analysis.Flow | docs/project_state.md:35 | propagating one edge meets its kinds into the target, queues it exactly if it changed, and never raises the termination measure |
| Analysis.FixpointIsMop | docs/project_state.md:35 | any table closed under propagation, each cell of which some paths explain, is the meet over all paths |
| Analysis.Analyze | docs/project_state.md:35 | the worklist analysis terminates within 12 n + 1 pops whatever order it takes them in, and its answer is the meet over all paths |
| Analysis.Translate | workspace/test_cheri_translate_reject.c:53-75 | code is emitted exactly for the accepted programs, it is the specified code, and a rejection names the first offending reachable instruction and its reason |
| Soundness.TagsBelowPath | JIT_PORT.md:31-32 | along any path the emitted code holds no authority that the path's own data flow does not give |
| Soundness.MopBelowTags | docs/project_state.md:34-35 | whatever the analysis promises at the end of a path, the emitted code has kept along it |
| Soundness.RunSound | JIT_PORT.md:11-32 | every run of an accepted program, loops included, never gets stuck, follows a control-flow path, and each register is tagged exactly when that path's tags say so, with exactly that root's bounds |
| Soundness.KindsSound | workspace/test_cheri_translate_reject.c:63-70 | at every step of every run, a register the analysis calls context, stack or map value holds a tagged capability with exactly that root's bounds |
| Refinement.RunRefines | workspace/test_cheri_objjit_compile.c:392-416 | while accesses stay inside their base register's root, the capability run equals the flat run in program counter, register bits, memory and returned value |
| Refinement.FaultTraps | JIT_PORT.md:42-43 | at the first access outside its root the capability run traps at that instruction, and stays trapped |
| Refinement.TrapsExactlyAtFault | workspace/test_cheri_objjit_compile.c:392-419 | the run traps at an instruction if and only if the flat run's first access outside its base's root is there; otherwise the two runs match |
| Operators.AluMeaning | workspace/exploit_programs.h:49-57 | for every operation and operands one word is the result: the sum or difference modulo 2^64, the bits both, either or exactly one operand has, the product or quotient by 2^(amount mod 64), rounded down and signed for the arithmetic shift |
| Operators.ConditionMeaning | workspace/test_m2_jmp.c:58-123 | each condition holds exactly of the words or the signed integers its name compares, or of words with a common one bit |
| Opcodes.LoadsByTable | workspace/exploit_programs.h:27-57 | every slot of every byte string loads as the table of opcode bytes says, fields included; every other opcode is unsupported |
| Opcodes.WideLoads | docs/generated_bpf_cheri_jit_milestone.md:78 | a two-slot constant is the little-endian number of its two immediates, low half first, for every register |
| Isolation.LoadsBytes | workspace/test_cheri_objjit_compile.c:250-306 | which bytes an access of each width reads, low byte first |
| Isolation.StoreLoadRoundTrip | workspace/test_cheri_objjit_compile.c:286-321 | a store then a load of the same width and address gives the value modulo the width, zero- or sign-extended |
| Isolation.Provenance | JIT_PORT.md:24-32 | in every run of any code, every tagged register has a root's bounds, unchanged |
| Isolation.NonInterference | workspace/exploit_programs.h:116-132 | runs of any code from memories that agree on context and map value, but may differ anywhere else and in the old stack bytes, agree in program counter, registers, visible memory, result and trap |
| Isolation.WritesThroughRoot | workspace/test_cheri_translate_reject.c:67-68 | a byte that changes in a step of an accepted program was written by a store whose base the analysis calls stack or map value, inside that root, and a map value only with a helper configured |
| Isolation.Frame | workspace/test_cheri_objjit_compile.c:375-384 | over a whole run no byte outside the stack and a configured map value changes |
| Isolation.ContextImmutable | workspace/test_cheri_translate_reject.c:114-118 | a context byte never changes unless a helper is configured and the byte lies inside the map value |
| PointerReturn.JoinReturnsPointer | docs/project_state.md:35-36 | a program that puts the stack pointer in R0 on one of two paths is accepted, and returns the stack address whenever R2 is not zero |
| PointerReturn.SumReturnsPointer | docs/project_state.md:35-36 | a program that adds a register holding the stack pointer on one path to R0 is accepted, leaves a scalar kind in R0 on every path, and returns the stack address whenever R2 is not zero |
| PointerReturn.KeepsAddresses | docs/project_state.md:36 | decides, for every program, whether any path uses a capability kind as an integer before EXIT, and whether any path brings one to EXIT in R0 |
| PointerReturn.GuardRefusesBoth | docs/project_state.md:35-36 | the first leaking program fails the second condition only, the other the first only |
| PointerReturn.StraightKeepsAddresses | workspace/exploit_programs.h:91-114 | every accepted program without branches satisfies both conditions: for those the notes' claim holds |
| PointerReturn.AgreeingKeepsAddresses | docs/project_state.md:35-36 | so does every accepted program, branches and loops included, in which all paths to each instruction leave the same kinds and jumps compare scalars |
| MayKinds.MeetFromJoin | docs/project_state.md:35 | a register keeps a capability kind at an instruction exactly when that kind is the only one in the join over all paths |
| MayKinds.MayAnalyze | docs/project_state.md:35 | the dual worklist ends within 67 n + 1 pops whatever order it takes, at the join over all paths |
| Layout.RunsAlike | workspace/exploit_programs.h:9-13 | two runs whose objects lie elsewhere, contents moved along, take the same path and trap at the same place; scalar registers agree, pointers move with their root, and results differ by exactly the shift of the root R0's path kind names |
| Layout.LayoutIndependent | workspace/exploit_programs.h:91-114 | if no path uses a capability kind as an integer or returns one, program counter, scalar registers, result and trap are the same in every layout |
| Layout.ReturnRevealsExactly | workspace/exploit_programs.h:9-13 | between layouts that move every root a result is the same exactly when its path leaves a scalar in R0 |
| Straight.StraightAccepted | workspace/test_cheri_translate_reject.c:53-75 | code without branches is accepted exactly when each live slot passes with the kinds read back to each register's last write |
| Straight.SweepDecides | workspace/test_cheri_translate_reject.c:53-75 | for code without branches one sweep gives the verdict, and the place and reason of a refusal |
| Straight.MopFromEdges | docs/project_state.md:35 | at a join of two edges the kinds are the meet of what the edges bring, exactly |
| Suite.ListsLoad | workspace/test_cheri_translate_reject.c:9-13 | the bytes of a table of INSN lines load as its instructions |
| Verdicts.CaseHolds | workspace/test_cheri_translate_reject.c:80-251 | each of the nineteen programs decodes as listed, and is accepted, or rejected at the instruction and for the reason the suite is about |
| Verdicts.TranslateSuite | workspace/test_cheri_translate_reject.c:53-75 | loading and translating all nineteen programs from their bytes gives no unexpected verdict, place or reason of rejection |
| Suite.MapNeedsHelper | workspace/test_helper_map_cap.c:54-84 | the map programs, at any offset, load as listed and are accepted exactly when helper 7 is the configured one |
| Jumps.ScalarAccepted | JIT_PLAN.md:57-65 | a program whose reached instructions touch no memory, call nothing and compute from no root register is accepted |
| Jumps.ScalarProgramsAgree | JIT_PLAN.md:71-72 | such a program gives the same state and result as the flat machine at every step, loops included, and never traps |
| Jumps.BranchSelects | workspace/test_m2_jmp.c:58-96 | a conditional jump skips exactly the two instructions after it, exactly when the two immediates compare so as signed integers, or their 64-bit words as unsigned ones or in a common bit |
| Jumps.BranchGoes | workspace/test_m2_jmp.c:111-123 | the same of one compiled jump on any 64-bit operands, registers included; nothing else changes |
| Jumps.OperationReturns | workspace/test_m2.c:73-85 | the program that applies an operation to two immediates is accepted and returns exactly the word the operation means |
| Jumps.RegisterOperationReturns | workspace/test_m2.c:87-105 | the same between registers, R1 among them |
| Jumps.JumpTestsPass | workspace/test_m2_jmp.c:58-123 | from their bytes each of the five jump tests is accepted and returns 42 |
| Jumps.LoopCounts | workspace/test_m2_jmp.c:125-139 | from its bytes, for every 32-bit count, the loop ends after its last round and returns the count as a 64-bit word |
| AccessFixtures.ContextLoads | workspace/test_cheri_objjit_compile.c:250-261 | a load of any width and extension through a moved alias of the context returns those bytes extended, and traps exactly when they are not inside the context |
| AccessFixtures.StackLoads | workspace/test_cheri_objjit_compile.c:354-365 | the same through the stack before any store: zero whatever the memory held, or a trap exactly when outside |
| AccessFixtures.StackSpills | workspace/test_cheri_objjit_compile.c:279-306 | storing and reading back at any width and offset returns the value cut to the width and extended, or traps at the store exactly when outside the stack |
| AccessFixtures.MapReads | workspace/test_helper_map_cap.c:54-75 | reading through the looked-up value returns the map's bytes, or traps exactly when outside it |
| AccessFixtures.MapWrites | workspace/test_helper_map_cap.c:61-84 | writing through it returns 0x5a (or 0), or traps at the store exactly when outside it |
| AccessFixtures.MapStoreReachesContext | docs/helper_map_capability_milestone.md:89-90 | with the context object as the map value a map store changes context bytes, so the exception in the frame is real |
| Fixtures.OobReadTraps | workspace/exploit_programs.h:82-89 | the out-of-bounds read is accepted and traps on every context shorter than 4104 bytes |
| Fixtures.UninitReadIsZero | workspace/exploit_programs.h:133-141 | the uninitialised stack read returns zero whatever the stack memory held |
| Fixtures.MaskedIndex | docs/generated_bpf_cheri_jit_milestone.md:64-67 | for every 64-bit value the shift by 9 and mask with 8 give 8 times bit 12, the byte offset of the C index |
| Fixtures.UnmaskedIndex | docs/generated_bpf_cheri_jit_milestone.md:76-79 | for every 64-bit value the shift by 9 and the wide mask give 8 times the value shifted right by 12 |
| Fixtures.InBoundsLoads | docs/generated_bpf_cheri_jit_milestone.md:64-69 | the fixture's bytes load as its listed instructions |
| Fixtures.OobLoads | docs/generated_bpf_cheri_jit_milestone.md:76-82 | the same with the two-slot mask constant |
| Fixtures.InBoundsReturns | workspace/bpf/arithmetic_context_in_bounds.c:10-16 | on every two-word context the fixture is accepted, never traps and returns word (a >> 12) & 1 |
| Fixtures.OobTraps | workspace/bpf/arithmetic_context_oob.c:10-16 | on every two-word context, whatever it holds and wherever it lies, the fixture is accepted and its second read traps |
| StackFixtures.SlotAccess | workspace/bpf/stack_oob.c:14-17 | storing to and reading back slot `index` of the 40-byte array returns the byte if the index is below 40, and traps at the store otherwise |
| StackFixtures.StackOobTrapsExactly | workspace/bpf/stack_oob.c:10-17 | the dynamic stack index traps exactly when the low 32 bits of the context's first word are 40 or more, and otherwise returns 0x5a |
| StackFixtures.StackArrayReturns | workspace/bpf/stack_array.c:12-16 | the index masked with 7 never traps: the stored byte is read back |
| Bytecode.EncodersAgree | workspace/exploit_programs.h:27-31 | the masked and unmasked encoders write the same bytes for register fields in range |
| Bytecode.DecodersAgree | workspace/test_cheri_tail_helper_context.c:29-45 | the Python and C field decoders read the same registers and offset from every instruction |
| Bytecode.DecodeIsInverse | tools/cheri_objjit_emit.py:65-75 | eight bytes decode to given in-range fields exactly when those fields encode to them |
| Bytecode.DecodeEncode | workspace/test_cheri_translate_reject.c:9-13 | decoding an encoded instruction gives its fields back, negative offsets and immediates included |
| Bytecode.EncodeDecode | tools/cheri_objjit_emit.py:65-75 | every eight-byte string decodes to fields in range and is encoded back to itself |
| Bytecode.LoadAssembled | workspace/test_cheri_translate_reject.c:26-29 | loading any assembled table gives back the instructions of its lines |
| HexText.HexRoundTrip | tools/cheri_objjit_emit.py:42-54 | every byte string written in the spaced, compact, comma, `0x`, comma-`0x` or `\x` form parses back to itself |
| HexText.AnyWhiteSpace | tools/cheri_objjit_emit.py:43-44 | bytes separated by any white space, runs and line ends included, parse to themselves |
| HexText.IntExactly | tools/cheri_objjit_emit.py:52 | a token has a value exactly when it is a numeral with optional sign and prefix, and then its positional one |
| HexText.DigitsOfBothCases | tools/cheri_objjit_emit.py:52 | the sixteen digits, in lower and upper case, and nothing else |
| HexText.TokensExactly | tools/cheri_objjit_emit.py:51-54 | tokens give a byte string exactly when each is the value of its byte, in order; anything else is an error |
| HexText.OddExactly | tools/cheri_objjit_emit.py:45-49 | the odd-length refusal is made exactly for one token of odd length above two |
| ObjEmit.ParsesExactly | tools/cheri_objjit_emit.py:78-117 | the parser yields an offset exactly for the two documented shapes with that 16-bit offset and an alias register in 2..9 |
| ObjEmit.EmitsExactly | tools/cheri_objjit_emit.py:78-126 | code is emitted for an offset exactly when the bytes are a documented shape with that offset, non-negative and divisible by 8 |
| ObjEmit.RefusesExactly | tools/cheri_objjit_emit.py:78-126 | which message each refused byte string gets: length, alias, EXIT, negative and misaligned offset, each exactly |
| ObjEmit.NeverTooLarge | tools/cheri_objjit_emit.py:125-126 | the "too large" refusal is never reached from program bytes |
| AsmText.DecimalRoundTrip | tools/cheri_objjit_emit.py:136 | every offset comes back from its decimal digits |
| AsmText.EmitsObjectExactly | tools/cheri_objjit_emit.py:37-39 | a symbol is refused exactly when it is not a nonempty word of letters, digits and underscores that starts with no digit; otherwise the program alone decides, with its own message |
| AsmText.DefaultSymbol | tools/cheri_objjit_emit.py:33 | under `bpf_entry` a text is written exactly for the programs the emitter accepts |
| AsmText.TextReads | tools/cheri_objjit_emit.py:129-139 | read line by line, the text is the comment, the directives, one label with the symbol, the load at that offset, the return, and the size directive |
| AsmText.TextLinks | workspace/test_cheri_objjit_context_repro.c:122 | looking a name up finds an exported function exactly when the name is the symbol, and behind it the load and the return |
| AsmText.TextReadsBack | tools/cheri_objjit_emit.py:142-158 | the emitted text gives back the symbol, the program's offset in its load, and the program's bytes in its source comment |
| AsmText.TextInjective | tools/cheri_objjit_emit.py:152-155 | different symbols or programs never give the same text, the alias register included |
| Morello.EmitU32 | workspace/test_cheri_direct_jit_repro.c:150-155 | one more word is appended after the words written so far, the rest of the page is untouched, and the offset advances by four |
| Morello.FetchEmitted | workspace/test_cheri_direct_jit_repro.c:150-155 | reading emitted bytes back as little-endian words gives the same words in order |
| Morello.EmitFetched | workspace/test_cheri_direct_jit_repro.c:150-155 | emitting the words fetched from any whole-word buffer gives the same bytes |
| DirectJit.LdrDecodes | workspace/test_cheri_direct_jit_repro.c:157-165 | an offset is encoded exactly when it is divisible by 8 and below 0x8000, and the word decodes to a load of X0 through C0 at that offset |
| DirectJit.LdrInjective | workspace/test_cheri_direct_jit_repro.c:157-165 | different offsets give different words |
| DirectJit.EmitProgram | workspace/test_cheri_direct_jit_repro.c:167-187 | the page holds exactly the program's words from `pc` on and is otherwise unchanged; a refused offset changes nothing |
| DirectJit.ProgramRuns | workspace/test_cheri_direct_jit_repro.c:14-22 | executing the fetched bytes returns 42, the tag, the length (undefined for an integer, which carries no bounds), or the context word or trap, for each of the four programs |
| DirectJit.AddressBuilt | workspace/test_instruction_matrix.c:69-71 | executing the three movz/movk words leaves X19 equal to the address modulo 2^48 and continues with the rest of the code |
| DirectJit.MovWord | workspace/test_m3_isolated.c:35-37 | opcode, 16-bit immediate and register number of each built word occupy separate bits |
| TailJit.AcceptsExactly | workspace/test_cheri_tail_helper_context.c:57-66 | the offset is k exactly for sixteen bytes whose bytes 0, 1 and 8 are 79, 10 and 95 (hex) and whose bytes 2 and 3 are the digits of k < 0x8000 |
| TailJit.CompileTail | workspace/test_cheri_tail_helper_context.c:54-84 | a fresh page is returned exactly for supported programs, and its first five words are the tail call for their offset |
| TailJit.MovzX2Decodes | workspace/test_cheri_tail_helper_context.c:79 | for every offset below 0x8000 the built word is a movz of that offset into X2 |
| TailJit.TailShuffles | workspace/test_cheri_tail_helper_context.c:76-80 | from every register state the five words branch to the helper with C0 = mem, X1 = len, X2 = offset, losing no argument and touching no register above 3 |
| TailJit.TailRunsHelper | workspace/test_cheri_tail_helper_context.c:20-27 | called with the helper's entry capability in C0 the code makes the helper's load of mem at the offset; with anything else there it does not |
| Agreement.ObjectCodeCorrect | tools/cheri_objjit_emit.py:129-155 | for every symbol, accepted byte string, context and memory, looking the symbol up in the text the emitter writes leads to code that gives the value or trap that the bytes give under the register-kind backend, which accepts them |
| Agreement.TailAcceptsToo | workspace/test_cheri_tail_helper_context.c:57-66 | every 16-byte program the emitter accepts, the tail-call generator accepts with the same offset |
| Agreement.EmitterIsStricter | workspace/test_cheri_tail_helper_context.c:57-66 | the emitter accepts exactly those tail-call programs whose offset is a multiple of 8, whose immediate is zero and whose EXIT is plain |
| Agreement.TailCodeCorrect | workspace/test_cheri_tail_helper_context.c:20-27 | for every accepted byte string whose EXIT slot names existing registers, the code called with the helper gives the value or trap of the bytes |
| Agreement.TailExitUnchecked | workspace/test_cheri_tail_helper_context.c:57 | the remaining byte strings it accepts are not programs the backend accepts |
| Agreement.GeneratorsAgree | workspace/test_cheri_direct_jit_repro.c:157-187 | object code, direct code and tail call through the helper give equal values or traps for every capability in the context register and every memory |

## Left out

- The uBPF library (ELF loading, interpreter, x86 JIT, register allocation, prologue words): the
  submodule is not part of this model.
- Atomics, local calls, capability spills and other helpers: modelled only as rejected.
- Isolation.Provenance: the roots are context, stack and map value; `helper_return` authority is
  named by the contract, but no modelled instruction produces it.
- Layout.LayoutIndependent: one way. A program may use an address as an integer and still return
  the same in every layout (the difference of an address with itself), so an integer use before
  EXIT is not shown to be observable.
- Morello's compressed bounds, permissions, sealing, sentries and C64 entry.
- Verdicts.TranslateSuite: states the place and reason of each rejection, not the text of the message;
  the message families are the constructors of `Kinds.Reason`.
- StackFixtures.StackOobTrapsExactly: the compiled bytes of the stack fixtures are not in the
  repository, so the instruction sequence is the one of `stack_reg_index_store_load` with the index
  loaded from the context; the stack must leave 2^32 addresses of the address space.
- StackFixtures.StackArrayReturns: covers the indexed store and load, not the sum that follows.
- The branch and width fixtures under workspace/bpf, the other jump tests and the other shapes of
  the compiled access table: instances of the run theorems.
- 32-bit arithmetic and jumps, multiplication, division and byte swaps: loaded as unsupported, so
  the model rejects them; none of the modelled programs uses them.
- HexText.HexRoundTrip: Python's non-ASCII digits and white space.
- Agreement.ObjectCodeCorrect: the assembler and linker are a reader of the emitted lines (comments,
  directives, labels, the two instructions); sections, alignment, relocation and words are not modelled.
- `--offset` debug mode and file output of the object emitter, and symbols outside ASCII.
- A failing mmap, processes, signals, pipes, dlopen and the VM tooling: a trap is an outcome of
  the machine.
