# Solvyr-3 verified model

A Dafny model of the Solvyr-3 system-on-chip — an RV32I core with machine-mode traps, a convolution
accelerator, a UART with a boot loader — and of the Python and C programs that go with it, with
machine-checked proofs of what they are for. `dafny verify dfyconfig.toml` checks everything.

Each clocked Verilog block is one step of a state machine. Wires are functions; a block's next state is a
function of the state before the edge (`Pipeline.Next`, `DirAccel.AccelNext`, `UartRx.RxNext`,
`UartTx.TxNext`, `Boot.BoardNext`), and a class updates the block's registers, buffers and memories in place
and is proved to do exactly that step. What the blocks promise is proved about runs of those steps. Words are
numbers below 2^32 and every adder, shifter and counter truncates explicitly.

The sequential machine shares leaf functions with the hardware: field slices, branch conditions, ALU operations,
byte lanes, RAM indexing, CSR read and write. Each of them is pinned down a second time, without its own body: by the
repository's instruction-set simulator (`Simulator.Cpu.Step` proves that its Python-style step, with its own opcode
numbers, immediates, arithmetic and flat byte memory, is the machine's step); opcode by opcode in numbers
(`Encodings`); bit by bit (`AluMeaning`, `Csr.SetsAndClears`); as a flat byte array (`Lanes`, `DataMemory`); through CSR
reads (`Traps`, `Csr.ReadBack`); and by the assembler's round trips. The register files of accelerator and UART are
pinned down by what software writes and reads back (`AccelRegisters`, `UartBus`).

| files | contents |
|---|---|
| `Words`, `Arithmetic`, `Bitwise` | 32-bit words, memories; multiplication and division facts; words as rows of bits |
| `Datapath`, `Csr` | decoder, control unit, immediates, ALU, branches, load/store unit; CSR file |
| `Isa` | the one-instruction-at-a-time machine, written opcode by opcode |
| `AluMeaning`, `Encodings`, `DataMemory`, `Traps`, `Simulator` | what that machine does, said independently: bits, encodings, bytes, CSR reads, and the Python simulator |
| `Pipeline`, `Core` | the five-stage core as a step function, and as objects clocked in place |
| `Sequential`, `Refinement`, `Runs`, `Exactness`, `Progress`, `Counters` | pipeline against ISA: steps, runs, exact condition, liveness, interrupts, counters and bus errors |
| `Lanes` | byte-enabled words against a flat byte array |
| `Conv`, `AccelModel`, `ConvMeaning`, `Overlap` | convolution jobs, the cycle model with multiplied addresses, what the writes leave, which overlaps are safe |
| `DirAccel`, `DirJob`, `AccelRegisters`, `AccelUnit` | the accelerator with incremental pointers, whole jobs, its registers, the object clocked in place |
| `PyModel`, `SoftwareConv`, `Verdicts` | `accel_model.py`, `conv2d`, the C convolution, and the comparisons between them |
| `Serial`, `UartRx`, `UartTx`, `Loopback`, `Uart`, `UartBus` | 8-N-1 waveforms, receiver, transmitter, the two wired together, the peripheral, the round trip in bus words |
| `Boot`, `BootUnit` | host payload, loader, instruction memory and core reset |
| `Assembler`, `BenchMath` | the two-pass assembler; software multiply, divide and number printing |

## Findings

* **The core can lose an instruction.** The load-use bubble into ID/EX is not withheld while MEM stalls
  (rtl/solvyr3_core.v:284), and in that register a flush beats a stall (rtl/pipeline_regs.v:141-156). When a
  load stalls in MEM, an independent load is in EX and the instruction in ID names the second load's
  destination, the second load is replaced by a bubble and never executes. `Exactness.RefinesExactlyWithoutWindows`
  gives the exact condition, `Runs.LosingWindow` says it in terms of three consecutive program words,
  `Progress.WITNESS` is a three-instruction program that always fails, and `Runs.GatedRefines` shows that
  gating the bubble with `~mem_stall` removes the defect for every program. No sequential run, whatever it
  samples and wherever it starts, has the events of a run that lost an instruction (`Exactness.LossShows`).
* **The assembler truncates distances silently** (tools/rv32i.py:48-56): in an assembled program a branch reaches
  its label exactly from 1024 instructions back to 1023 ahead, a jump from 2^18 back to 2^18 - 1 ahead
  (`Assembler.ProgramBranchLands`, `Assembler.ProgramJumpLands`); over 1023 NOPs a branch goes 4096 bytes back
  instead of ahead (`Assembler.LongBranchMisses`). `lui` and `auipc` take an operand of 0x1000 or more for the
  whole word (tools/rv32i.py:112-113), so an upper immediate arrives exactly when it is below 0x1000
  (`Assembler.UpperFits`).
* **Some overlaps of input and output tile give wrong samples.** With no output wrapping onto another, a job always
  leaves the convolution if and only if no output lands on a word that a later output reads
  (`DirJob.SafeJobsExactly`). For tiles that do not wrap around the scratchpad (`Overlap.NoClobberExactly`) that
  is: the output starts at or before the input tile, or past its end; or there is one output row and it starts a
  whole number of rows ahead; or one output column and it starts in the first row; or there is one output.
  `DirJob.OverlapAheadClobbers` shows one failing job in numbers.
* **The simulator and the hardware differ** (tools/rv32i.py:186-253) outside `Simulator.Covered`: the simulator reports
  the PC in mtval for EBREAK where the hardware reports 0, does not touch mstatus on traps and MRET, keeps all bits of
  mstatus, mtvec and mepc, performs misaligned accesses and jumps instead of trapping, and has no interrupts. Inside it
  they agree on every instruction.
* **`instret` counts a finished instruction again in every cycle a stall holds it in WB** (rtl/csr_file.v:152-154):
  `Counters.CountersAreExact` says by exactly how much it exceeds the retired instructions.
* Where code and documentation or standard differ, the code is modelled: FENCE decodes as illegal; funct7 is
  not checked; load and store size 3 trap as misaligned; reserved branch conditions are never taken; a timer
  interrupt wins over an external one (rtl/csr_file.v:195-203); the loader does not parse the sync word that
  tools/uart_load.py:59 says it does.

## Model

| member | source | states |
|---|---|---|
| Sequential.ArithAgrees | rtl/decoder.v:42-72 | the decoded ALU operation of every OP and OP-IMM word computes what the ISA says for its funct3 and bit 30 |
| AluMeaning.LogicIsBitwise | rtl/alu.v:29-31 | every bit of AND, OR and XOR is the function of the two bits in its place |
| AluMeaning.XorTwice | rtl/alu.v:31 | exclusive or with the same word twice gives the first operand back |
| AluMeaning.LeftShiftMovesBits | rtl/alu.v:32 | SLL moves every bit up by the low five bits of operand b and fills with zeros |
| AluMeaning.RightShiftMovesBits | rtl/alu.v:33 | SRL moves every bit down and fills with zeros |
| AluMeaning.ArithmeticShiftMovesBits | rtl/alu.v:34 | SRA moves every bit down and fills with the sign |
| Encodings.OpAct | tools/rv32i.py:199-203 | opcode 0x33: register-register arithmetic by funct3 and bit 30, on to PC + 4 |
| Encodings.OpImmAct | tools/rv32i.py:204-213 | opcode 0x13: the same with the sign-extended 12-bit immediate, bit 30 for funct3 5 only |
| Encodings.LoadAct | rtl/control_unit.v:76-83 | opcode 0x03: the address is the register plus the signed immediate; size and extension by funct3; misaligned raises 4 with the address |
| Encodings.StoreAct | rtl/control_unit.v:85-89 | opcode 0x23: the same with the split immediate; misaligned raises 6 |
| Encodings.BranchAct | rtl/branch_unit.v:27-40 | opcode 0x63: taken by funct3 on unsigned or signed values, to PC plus the signed offset; a misaligned target raises 0 with the target |
| Encodings.JalAct | tools/rv32i.py:224-225 | opcode 0x6F: PC plus the signed 21-bit offset, PC + 4 into rd |
| Encodings.JalrAct | tools/rv32i.py:226-227 | opcode 0x67: register plus immediate with the lowest bit cleared, PC + 4 into rd |
| Encodings.UpperAct | tools/rv32i.py:228-229 | opcodes 0x37 and 0x17: the upper 20 bits, alone or added to the PC |
| Encodings.SystemAct | rtl/control_unit.v:121-140 | opcode 0x73: ECALL raises 11, EBREAK 3, 0x302 returns, the other codes and funct3 4 raise 2 with the word, the rest are CSR instructions |
| Encodings.OtherAct | rtl/control_unit.v:142 | every other opcode, FENCE included, raises 2 with the word |
| Encodings.ArithByFunct3 | tools/rv32i.py:200-202 | which funct3 adds, subtracts, shifts, compares signed or unsigned, or combines bits, as arithmetic on the operands |
| Simulator.Cpu.ExecOp | tools/rv32i.py:199-203 | the simulator's table of register-register operations computes the machine's results |
| Simulator.Cpu.Ld | tools/rv32i.py:176-181 | the simulator's load of a slice of bytes is the machine's load |
| Simulator.Cpu.St | tools/rv32i.py:182-185 | the simulator's slice assignment is the machine's store |
| Simulator.Cpu.StepCsr | tools/rv32i.py:238-247 | the simulator's CSR instructions on mtvec, mscratch, mepc, mcause and mtval are the machine's |
| Simulator.Cpu.Step | tools/rv32i.py:186-253 | from any shared state one step of the simulator is one step of the machine: PC, registers, data RAM, shared CSRs, traps included |
| Simulator.Cpu.Run | tools/rv32i.py:254-263 | so is every run up to its stop address, a self-branch or the step limit |
| DataMemory.AddressMap | rtl/mm_interconnect.v:60-67 | addresses below 0x7000 have a slave; the data RAM is 0x1000 to 0x1FFF, word by word |
| DataMemory.WordsStayApart | rtl/dmem_bram.v:39-55 | a write to one word of the RAM shows in no other, and a full write reads back |
| DataMemory.StoreOnBytes | rtl/dmem_bram.v:39-55 | an aligned store to the RAM is the slice assignment at its address in 4096 flat bytes |
| DataMemory.LoadOnBytes | rtl/dmem_bram.v:39-55 | an aligned load from the RAM returns the bytes at its address, extended as asked |
| DataMemory.StepOnBytes | tools/rv32i.py:176-185 | every step of the machine stores to, loads from, or leaves alone that byte array |
| DataMemory.RunOnBytes | tools/rv32i.py:176-185 | after every run the RAM is the byte array its stores leave |
| Sequential.BranchesAreComparisons | rtl/branch_unit.v:27-40 | branch conditions are the ALU's subtraction and comparisons, odd ones the negation of even ones; signed and unsigned order differ exactly when the sign bits do |
| Sequential.ShiftsDivide | rtl/alu.v:25-40 | right shifts are exact floor divisions by 2^n, of the unsigned and of the signed value |
| Csr.SetsAndClears | rtl/csr_file.v:118-126 | CSR set and clear change exactly the bits of the source |
| Csr.ReadBack | rtl/csr_file.v:91-184 | a written CSR reads back as what it can hold of the value; a write to a counter, mip, misa, an identification register or an absent one changes nothing |
| Csr.WritesStayApart | rtl/csr_file.v:167-184 | a write to one CSR shows in no other |
| Traps.FixedReads | rtl/csr_file.v:91-112 | the counters' halves are their 64 bits, misa is fixed, absent and identification registers read zero |
| Traps.ResetReads | rtl/csr_file.v:138-150 | after reset mstatus reads 0x1800 and mie, mtvec, mscratch, mepc, mcause and mtval read zero |
| Traps.PendingReads | rtl/csr_file.v:77-78 | mip shows the timer in bit 7 and the accelerator in bit 11 |
| Traps.TrapIsRecorded | rtl/csr_file.v:156-162 | after any trap, read through the CSRs: mcause is the event's cause with bit 31 for interrupts, mtval its value, mepc the trapped PC, mstatus the stacked enable; execution is at mtvec and all else is as before |
| Traps.InterruptsAre | rtl/csr_file.v:194-203 | an instruction without exception is interrupted exactly when mstatus, mie and mip have the bits set: cause 7 before cause 11; an exception goes before both |
| Traps.ReturnIs | rtl/csr_file.v:163-166 | MRET goes to mepc, takes MIE from MPIE and sets MPIE |
| Traps.CsrInstruction | rtl/csr_file.v:118-132 | a CSR instruction reads the old value into rd and writes, bit by bit, the source, the union or the difference; setting or clearing with zero writes nothing |
| Sequential.ImmIAgrees | rtl/imm_gen.v:24-26 | the I-immediate wired in hardware is the sign-extended 12-bit field |
| Sequential.ImmSAgrees | rtl/imm_gen.v:28-29 | the same for S |
| Sequential.ImmBAgrees | rtl/imm_gen.v:31-33 | the same for B, bit 0 zero |
| Sequential.ImmJAgrees | rtl/imm_gen.v:38-40 | the same for J, bit 0 zero |
| Sequential.DatapathMeetsIsa | rtl/control_unit.v:46-146 | for every instruction word and operands: decoder, control unit, ALU, branch unit and exception wires together do what the ISA's opcode-by-opcode meaning says, traps included |
| Sequential.SequentialIsIsa | rtl/solvyr3_core.v:421-489 | running one instruction alone through EX, MEM and WB is the ISA step: same state, same event, same bus requests |
| Isa.StepKeepsAligned | rtl/csr_file.v:156-178 | every step keeps the PC, mtvec and mepc 4-aligned, so mepc is exactly the trapped PC |
| Refinement.ResetOk | rtl/solvyr3_core.v:143-178 | reset establishes the pipeline invariant, at PC 0 of the sequential machine |
| Refinement.StallIsLoad | rtl/solvyr3_core.v:105-117 | MEM stalls only on a load's first cycle, which neither traps nor returns nor writes |
| Refinement.StallKeeps | rtl/pipeline_regs.v:122-176 | a stall cycle that loses nothing leaves the architectural state and every stage as they are |
| Refinement.LoadedWord | rtl/dmem_bram.v:41-55 | the word a waiting load picks up is the RAM word at its address |
| Refinement.CommittedValue | rtl/solvyr3_core.v:516-530 | what the committing instruction will write back is what the sequential machine writes |
| Refinement.EventAgrees | rtl/solvyr3_core.v:421-451 | what leaves MEM is the sequential machine's next event: retirement with its register write, trap or return |
| Refinement.RedirectSteps | rtl/solvyr3_core.v:430-471 | a trap, interrupt or MRET is one sequential step, and everything younger is gone |
| Refinement.OperandSound | rtl/solvyr3_core.v:311-356 | both operands of the instruction in EX are the sequential register values just before it |
| Refinement.ForwardSound | rtl/forwarding_unit.v:35-54 | MEM-before-WB-before-register-file bypass, with write-back held or moving, yields the register after both older writes |
| Refinement.MoveTaken | rtl/solvyr3_core.v:348-351 | a taken branch or jump leaves no wrong-path instruction behind |
| Refinement.MoveLoadUse | rtl/hazard_unit.v:52-74 | a load-use bubble keeps the consumer in ID and the invariant |
| Refinement.MoveStraight | rtl/solvyr3_core.v:136-178 | straight-line flow keeps the invariant through fetch buffer, decode and EX |
| Refinement.TrafficStep | rtl/solvyr3_core.v:478-489 | the bus requests of one cycle are those the sequential machine makes, a load's once although it stays two cycles |
| Refinement.StepSimulates | rtl/solvyr3_core.v:100-542 | every cycle that loses nothing keeps the invariant and is a sequential step or none, for both the design and the gated variant |
| Runs.PipelineRefines | rtl/solvyr3_core.v:100-542 | over every program, memory and input trace without a loss, the events leaving MEM, the final state and the data-bus traffic are exactly a run of the sequential machine with interrupts at those boundaries |
| Runs.GatedRefines | rtl/solvyr3_core.v:282-284 | with the bubble gated by the stall, refinement holds from reset for every program, memory and input trace, without any condition |
| Runs.StallIsLoadCommit | rtl/solvyr3_core.v:442-446 | a cycle in which MEM stalls is the start of a load that commits |
| Runs.LosesExactlyInWindows | rtl/hazard_unit.v:52-74 | the bubble and the stall coincide if and only if MEM stalls and the program has a load, an independent load and an instruction naming the second one's rd in a row |
| Exactness.AfterLoss | rtl/pipeline_regs.v:141-156 | after a loss the next instruction to leave MEM is the consumer, not the lost load |
| Exactness.NoRunSkips | rtl/pipeline_regs.v:141-156 | no sequential run, from any state and with any inputs, passes from a retired load at p to p+8 |
| Exactness.LossShows | rtl/pipeline_regs.v:141-156 | a loss is visible within five cycles and for good: no sequential run from any state and with any inputs has these events |
| Exactness.TracksUntilLoss | rtl/solvyr3_core.v:100-542 | up to the first loss the run is a sequential run |
| Exactness.RefinesExactlyWithoutWindows | rtl/solvyr3_core.v:282-284 | over unbounded runs the design refines the sequential machine if and only if it never raises bubble and stall together, if and only if some sequential run explains its events at every cycle, if and only if the sequential run never completes a load at the head of a losing window |
| Exactness.WindowFreeProgramsAreSafe | rtl/solvyr3_core.v:282-284 | a program image without a losing window runs correctly under all inputs |
| Progress.ShapeKept | rtl/solvyr3_core.v:105-178 | in every reachable state, losses included, a waiting load has its answer and a bubble in EX does nothing |
| Progress.LoadHoldsTwoCycles | rtl/solvyr3_core.v:105-117 | in every reachable state, losses included, a load that stalls MEM makes one request, keeps its place and leaves one cycle later, neither trapped nor interrupted, whatever the inputs |
| Progress.RankDrops | rtl/solvyr3_core.v:105-178 | every cycle in which nothing leaves MEM brings the oldest instruction nearer |
| Progress.SomethingLeavesWithinSixCycles | rtl/mm_interconnect.v:79-97 | from every state reachable from reset, losses or not and whatever the inputs, an instruction commits or traps within six cycles |
| Progress.WitnessHasWindow | rtl/hazard_unit.v:52-74 | the witness program contains a losing window |
| Progress.WitnessIsLost | rtl/solvyr3_core.v:282-284 | from reset, under every input trace, ten cycles on: the first load retired at 0, the next instruction to leave MEM was the one at 8, and no sequential run from any state has these events |
| Progress.MaskedStep | rtl/csr_file.v:156-184 | with interrupts disabled none is taken, and a step enables them if and only if it is an MRET with MPIE set or a CSR instruction that leaves mstatus.MIE set |
| Progress.MaskedRun | rtl/csr_file.v:194-203 | with interrupts disabled none is taken until an MRET with MPIE set or a CSR write enables them |
| Progress.TrapMasksInterrupts | rtl/csr_file.v:156-162 | after any trap no interrupt is taken until a step enables them |
| Progress.TrapThenReturnRestores | rtl/csr_file.v:156-166 | trap, handler that leaves mstatus alone, MRET: the interrupt enable is restored |
| Progress.TrapThenReturnResumes | rtl/csr_file.v:156-166 | trap, handler that leaves mepc alone, MRET: execution goes on at exactly the instruction that trapped |
| Counters.CountersAreExact | rtl/csr_file.v:150-154 | from reset `cycle` is the number of clocks, and `instret` plus the instruction in WB is the number of retired instructions plus the cycles in which a stall held one in WB, modulo 2^64 |
| Counters.BusErrorIsExact | rtl/mm_interconnect.v:89-97 | the sticky bus-error flag is set exactly when an earlier request went to 0x7000 or above |
| Core.IfIdReg.Clock | rtl/pipeline_regs.v:47-69 | the IF/ID register's next contents; flush beats stall |
| Core.IdExReg.Clock | rtl/pipeline_regs.v:122-175 | the ID/EX register's next contents; flush clears control, valid and trap triggers and beats stall |
| Core.ExMemReg.Clock | rtl/pipeline_regs.v:220-251 | the EX/MEM register's next contents |
| Core.MemWbReg.Clock | rtl/pipeline_regs.v:291-311 | the MEM/WB register's next contents |
| Core.RegFile.Read | rtl/regfile.v:51-59 | a read returns the value being written in the same cycle; x0 reads 0 |
| Core.RegFile.Clock | rtl/regfile.v:46-49 | the registers after an edge are those after the write-back |
| Core.CsrFile.EnterTrap | rtl/csr_file.v:156-162 | the CSR state after trap entry |
| Core.CsrFile.Write | rtl/csr_file.v:167-184 | the CSR state after a CSR instruction's write |
| Core.CsrFile.Modify | rtl/csr_file.v:118-132 | read, modify and conditional write |
| Core.CsrFile.Clock | rtl/csr_file.v:137-186 | trap beats MRET beats CSR write; both counters advance independently |
| Core.PipelinedCore.ClockFetch | rtl/solvyr3_core.v:143-178 | PC, fetch buffer and instruction-memory output after an edge |
| Core.PipelinedCore.ClockBus | rtl/solvyr3_core.v:105-117 | wait state, data RAM, bus response and sticky bus error after an edge |
| Core.PipelinedCore.ClockBanks | rtl/solvyr3_core.v:282-299 | the four pipeline registers, register file and CSR file after an edge |
| Core.PipelinedCore.Clock | rtl/solvyr3_core.v:100-542 | the whole core updated in place is the step function, and from a good state a clock that loses nothing is a sequential step or none, reporting what left MEM |
| Lanes.StoreLane | rtl/load_store_unit.v:58-79 | byte enables cover exactly the addressed bytes and each enabled lane carries the right data byte |
| Lanes.MisalignedStoresNothing | rtl/load_store_unit.v:58-79 | a misaligned store enables no lane, so no word changes |
| Lanes.StoreIsFlat | rtl/dmem_bram.v:46-51 | an aligned store into byte-enabled words is the slice assignment into little-endian bytes |
| Lanes.LoadIsFlat | rtl/load_store_unit.v:81-101 | an aligned load returns the little-endian bytes, sign- or zero-extended |
| Lanes.LanesAreFlat | tools/rv32i.py:176-185 | over every sequence of aligned byte, halfword and word accesses both memories return the same values |
| Conv.DotBound | rtl/dsp_mac.v:32-39 | every partial dot product is at most taps times 2^30 in magnitude |
| Conv.NoWrap48 | rtl/dsp_mac.v:32-39 | up to 65536 such products never wrap the 48-bit accumulator |
| Conv.SampleIsLow16 | rtl/dir_accel.v:231 | a sample is the signed 16-bit number that agrees with its word modulo 2^16 |
| Conv.ScaleIsFloor | rtl/dir_accel.v:193-194 | an output is the sum divided by 2^shift, rounded down, modulo 2^32 |
| AccelModel.StepKeepsInv | tools/accel_model.py:45-120 | every cycle keeps: coefficients loaded so far, exact partial sum, operand in flight, outputs written back so far |
| AccelModel.StepTakesOneCycle | tools/accel_model.py:45-120 | every cycle uses up exactly one of the remaining cycles, and at least one remains until the end |
| AccelModel.ReadAddrSteps | rtl/dir_accel.v:143-153 | the constant strides of the read pointer: one along a window row, W-K+1 to the next |
| AccelModel.PixelAddrSteps | rtl/dir_accel.v:143-153 | the constant strides between output pixels: one, and K at the end of a row |
| ConvMeaning.DotOfOriginal | rtl/dir_accel.v:296-357 | without clobbering, each output's sum is over the original tile although earlier outputs are already written |
| ConvMeaning.OutputsLand | rtl/dir_accel.v:338-357 | an output once written stays, and is the sample of the original tile |
| ConvMeaning.WrittenBackIsConvolved | tools/rv32i.py:371-381 | the written-back scratchpad holds the convolution of the original tile and every other word unchanged |
| ConvMeaning.ApartIsSafe | rtl/dir_accel.v:296-357 | disjoint tiles do not clobber |
| ConvMeaning.InPlaceIsSafe | rtl/dir_accel.v:296-357 | an output tile starting at or before the input tile does not clobber, overlap or not |
| Overlap.NoClobberExactly | rtl/dir_accel.v:296-357 | for tiles that do not wrap, no output lands on a word still to be read if and only if the output starts in one of the safe places |
| Overlap.ClobberShows | rtl/dir_accel.v:338-357 | whenever one does, there is a scratchpad on which the written-back tile is not the convolution |
| ConvMeaning.DotIsConvSum | tools/rv32i.py:371-381 | the scratchpad sum is the reference convolution sum of the tile and kernel stored there |
| DirAccel.StreamLockstep | rtl/dir_accel.v:317-337 | in a streaming cycle the incremental pointers stay the multiplied addresses modulo 2^32 and the state stays the model's |
| DirAccel.WriteLockstep | rtl/dir_accel.v:338-357 | the same for a write cycle, rows wrapping included |
| DirAccel.LoadLockstep | rtl/dir_accel.v:297-308 | the same for the coefficient load |
| DirAccel.RunningStep | rtl/dir_accel.v:249-364 | one clock of a running job, whatever is written to the registers, keeps the job invariant and uses up exactly one cycle |
| DirJob.StartBegins | rtl/dir_accel.v:267-295 | START on a valid configuration sets up that job on the scratchpad as it stands |
| DirJob.StartRejected | rtl/dir_accel.v:278-284 | an invalid configuration is rejected with ERROR and DONE, leaving scratchpad and ACC_RESULT alone; exactly the valid ones are accepted |
| DirJob.JobRuns | rtl/dir_accel.v:297-364 | BUSY holds for exactly the remaining cycles, then DONE, with the outputs written back in order |
| DirJob.JobFromStart | rtl/dir_accel.v:297-364 | from START: BUSY for (K^2+1) + OW*OH*(K^2+3) + 1 cycles, exact effect on the scratchpad even when tiles overlap or wrap, ACC_RESULT the last sample |
| DirJob.JobConvolves | rtl/dir_accel.v:201-368 | no output landing on a word still to be read, wrapping tiles and overwritten kernels included: the output is the convolution of the original tile, all else unchanged, configuration writes meanwhile without effect |
| DirJob.SafeJobsExactly | rtl/dir_accel.v:201-368 | an accepted configuration always leaves the convolution, from any idle state and scratchpad, if and only if no output lands on a word still to be read; for tiles that do not wrap, if and only if the output starts in one of the safe places |
| DirJob.OverlapAheadClobbers | rtl/dir_accel.v:338-357 | from START, pixels 5 and 7 under the identity kernel with the output one word ahead: the second sample is 5 and should be 7 |
| AccelUnit.Accelerator.constructor | rtl/dir_accel.v:249-262 | every register, the coefficient buffer and the scratchpad are zero |
| AccelRegisters.RegisterWrites | rtl/dir_accel.v:95-105 | for every field value and whatever the unused bits, control, bases and image size take what software writes and nothing else moves |
| AccelRegisters.KernelWrites | rtl/dir_accel.v:99-103 | kernel size, shift and coefficient base are bits 0-3, 8-11 and 16-27; the bits between are ignored |
| AccelRegisters.StrobesAre | rtl/dir_accel.v:76-80 | START and INT_ACK are bit 0 written at offsets 0x00 and 0x1C; reads and other offsets configure nothing |
| AccelRegisters.RegisterReads | rtl/dir_accel.v:385-394 | every configuration field reads back where it was written, STATUS shows busy, done and error, RESULT the last sample |
| AccelRegisters.ReadsByOffset | rtl/dir_accel.v:385-394 | only the word offset in the block matters, and offsets without a register read zero |
| AccelRegisters.ResetReads | rtl/dir_accel.v:249-262 | out of reset every register reads zero and the interrupt line is low |
| AccelRegisters.IdleWrite | rtl/dir_accel.v:263-267 | an idle accelerator that is not started stays idle, not BUSY, and keeps scratchpad, result and error; DONE goes only by INT_ACK |
| AccelRegisters.Configured | rtl/dir_accel.v:82-107 | from any idle state the four writes of any tile, kernel, shift and bases lead to exactly that job, and touch nothing else |
| AccelRegisters.JobRaisesIrq | rtl/dir_accel.v:370 | at the end of a job the interrupt line is high if and only if START enabled it |
| AccelRegisters.NoIrqWhileBusy | rtl/dir_accel.v:370 | the line is low for all the cycles a job takes |
| AccelRegisters.IrqHolds | rtl/dir_accel.v:263 | an idle accelerator holds the line until INT_ACK lowers it |
| AccelUnit.Accelerator.ClockRead | rtl/dir_accel.v:376-396 | the answer to a register read, one clock later |
| AccelUnit.Accelerator.ClockStream | rtl/dir_accel.v:317-337 | the registers a streaming cycle updates in place |
| AccelUnit.Accelerator.ClockWrite | rtl/dir_accel.v:338-357 | the scratchpad word and registers a write cycle updates in place |
| AccelUnit.Accelerator.Clock | rtl/dir_accel.v:82-364 | one edge of configuration block, FSM, scratchpad port B and MAC together |
| PyModel.LoadMem | tools/accel_model.py:28-30 | the scratchpad before the first cycle: image, then kernel over it, masked to 32 bits |
| PyModel.Outputs | tools/accel_model.py:47-61 | the ports driven in a cycle are the model's read, write and MAC operands |
| PyModel.NextState | tools/accel_model.py:63-97 | the controller's next registers are the model's |
| PyModel.Cycle | tools/accel_model.py:45-120 | one iteration of the loop, raw 48-bit accumulator included, is one model step |
| PyModel.Run | tools/accel_model.py:28-123 | for kernels of any size: the loop takes one cycle less than the hardware job, or stops at 500000, and returns the written-back tile and last sample |
| SoftwareConv.Conv2d | tools/rv32i.py:371-381 | the four loops compute every golden sample in order, for kernels of any size; empty when the kernel is larger than the tile, zeros when it has size 0 |
| SoftwareConv.CalcOne | bench/bench.c:247-259 | one 32-bit software sum is the reference sum modulo 2^32 |
| SoftwareConv.ConvSw | bench/bench.c:203-219 | the C loop fills the output array with those sums |
| Verdicts.SampleIsGolden | tools/rv32i.py:371-381 | a hardware sample is the golden sample of the stored tile and kernel |
| Verdicts.SelfCheck | tools/accel_model.py:131-143 | the comparison of model and golden convolution comes out equal for every tile that fits |
| Verdicts.HardwareMatchesSoftware | bench/bench.c:276-287 | any unshifted job leaves in its output tile, word for word, what the C loop computes |
| Verdicts.BenchmarkMatches | bench/bench.c:229-287 | the benchmark's register writes and START lead to MATCH for every image and kernel |
| Serial.FramesPass | rtl/uart_rx_core.v:55-100 | on a legal waveform every frame that starts passes each of its clocks exactly once, in order |
| Serial.WaveIsLegal | rtl/uart.v:13-17 | a host's frames with any gaps form a legal waveform carrying exactly its bytes |
| UartRx.RxStep | rtl/uart_rx_core.v:55-100 | on a legal line every clock keeps the receiver in step: no false start, idle when a start bit arrives, one strobe per frame with its byte |
| UartRx.RxDecodes | rtl/uart_rx_core.v:42-100 | over every legal waveform and divisor the strobed bytes are exactly the frames' bytes, in order |
| UartRx.HostBytesArrive | rtl/uart_rx_core.v:42-100 | bytes sent with any gaps, none included, all arrive, and the receiver ends idle |
| UartRx.RxCore.Clock | rtl/uart_rx_core.v:42-100 | the receiver's registers after an edge |
| UartTx.SendStep | rtl/uart.v:74-115 | whatever is written, the line continues a legal waveform and the shifter holds the rest of the frame |
| UartTx.TxSends | rtl/uart.v:74-117 | every schedule of writes puts a legal waveform on the line |
| UartTx.NothingLostInTx | rtl/uart.v:74-115 | bytes accepted are frames started followed by bytes still held, in order |
| Loopback.LoopbackConserves | rtl/uart.v:74-120 | at every moment bytes accepted equal bytes received followed by bytes in flight |
| Loopback.Drains | rtl/uart.v:74-120 | without writes the transmitter is idle within two frames and a few clocks |
| Loopback.LoopbackDelivers | rtl/uart.v:74-120 | after enough quiet the bytes received are exactly those written while TX_READY |
| Uart.FlagIsExact | rtl/uart.v:138-156 | RX_OVERRUN is set exactly when a byte was overwritten unread since the last clear, or it was set before and never cleared |
| Uart.OverrunIsExact | rtl/uart.v:138-156 | every byte is read, overwritten or waiting, and while none is overwritten software gets every byte in order, whatever it clears |
| Uart.StatusIsExact | rtl/uart.v:160 | TX_READY exactly when a byte written now is accepted, TX_BUSY exactly when one is held or being sent, RX_VALID exactly when one is unread |
| Uart.LowByteIs | rtl/uart.v:90 | the byte taken from a bus word is its value modulo 256 |
| Uart.RegistersAre | rtl/uart.v:55-66 | offsets 0, 4, 8 and 12 are TXDATA, RXDATA, STATUS and CTRL, and what each reads as in numbers |
| Uart.ResetReads | rtl/uart.v:74-173 | out of reset the line is high and no answer due; STATUS reads TX_READY alone, every other register 0 |
| UartBus.WordsAreConserved | rtl/uart.v:52-173 | looped back, for every schedule of bus accesses from reset without an overwritten byte: words written while TX_READY, modulo 256, are the words read while RX_VALID followed by those on their way |
| UartBus.NoOverrunNoLoss | rtl/uart.v:138-156 | the same when software never clears RX_OVERRUN and finds it clear at the end |
| UartBus.WordsComeBack | rtl/uart.v:52-173 | after two frames and a few clocks without writes, every word written while TX_READY has been read back modulo 256, in order, but for at most one still in RXDATA |
| Uart.UartPort.ClockTx | rtl/uart.v:74-115 | the transmitter's registers after an edge |
| Uart.UartPort.ClockMail | rtl/uart.v:141-156 | the mailbox registers after an edge; a strobe in the cycle of a read still counts |
| Uart.UartPort.ClockRead | rtl/uart.v:160-173 | ready one clock after a request, with RXDATA, STATUS or 0 |
| Uart.UartPort.Clock | rtl/uart.v:52-173 | one edge of the whole peripheral, addressed over the bus, its answer included |
| Boot.PayloadAt | tools/uart_load.py:62-70 | which byte of which word comes at each position of the payload |
| Boot.PartialStep | rtl/prog_loader.v:85-110 | shifting bytes in from the top assembles little-endian words |
| Boot.LoadStep | rtl/prog_loader.v:66-115 | every clock, with or without a byte, keeps the loader where the bytes seen put it |
| Boot.LoadRun | rtl/prog_loader.v:66-115 | any part of a payload, at any pace, leaves the words seen so far in memory |
| Boot.EventsAreStrobes | rtl/prog_loader.v:48-51 | the loader sees exactly the receiver's strobes, one clock later |
| Boot.BootIsSafe | rtl/solvyr3_soc.v:61-62 | at every clock: if the core is out of reset, the last write has landed and memory is the image over the old contents |
| Boot.BootCompletes | rtl/solvyr3_soc.v:125-134 | for every image of at most 1024 words, divisor and pacing, five clocks after the last stop bit the core runs on exactly that image |
| Boot.DisabledLoaderStaysOut | rtl/prog_loader.v:75-78 | with loading disabled the core runs one clock after reset and the memory stays as it was |
| Boot.BootedFetch | rtl/imem_bram.v:62-70 | the booted core fetches image word i at address 4i, what was there before behind it, and NOPs from 0x1000 on |
| BootUnit.LoaderPort.ClockLoader | rtl/prog_loader.v:66-115 | the loader's registers after an edge |
| BootUnit.LoaderPort.ClockPort | rtl/imem_bram.v:73-83 | port B: a write lands with its byte enables, the word read is the one before it, ready one clock later |
| BootUnit.LoaderPort.Clock | rtl/solvyr3_soc.v:124-134 | one edge of receiver, loader and instruction memory, port B the loader's until it is done and then the data bus's |
| Assembler.RRoundTrip | tools/rv32i.py:43 | decoding an R-type word gives its fields back |
| Assembler.IRoundTrip | tools/rv32i.py:44 | the same for I, with the immediate's low 12 bits sign-extended |
| Assembler.SRoundTrip | tools/rv32i.py:45-47 | the same for S |
| Assembler.BRoundTrip | tools/rv32i.py:48-51 | the same for B: 13 bits, bit 0 dropped |
| Assembler.URoundTrip | tools/rv32i.py:52 | the same for U |
| Assembler.JRoundTrip | tools/rv32i.py:53-56 | the same for J: 21 bits, bit 0 dropped |
| Assembler.Assemble | tools/rv32i.py:63-90 | two passes: labels collected, each instruction encoded at its own address, failure exactly when a label is undefined |
| Assembler.LabelAddress | tools/rv32i.py:67-77 | a label's value is the address of the instruction after its last definition |
| Assembler.BranchLands | rtl/imm_gen.v:31-33 | at any address, an emitted branch takes the hardware to its label if and only if the distance modulo 2^32 is even and fits 13 bits |
| Assembler.JumpLands | rtl/imm_gen.v:38-40 | the same for jumps and 21 bits |
| Assembler.ProgramBranchLands | tools/rv32i.py:63-90 | in an assembled program a branch takes the hardware to the instruction after its label's last definition if and only if that is from 1024 instructions back to 1023 ahead |
| Assembler.ProgramJumpLands | tools/rv32i.py:63-90 | the same for jumps, 2^18 instructions back to 2^18 - 1 ahead |
| Assembler.LongBranchMisses | tools/rv32i.py:48-51 | over n NOPs a forward branch lands if and only if n is below 1023; over 1023 it goes 4096 bytes back |
| Assembler.NopWords | tools/rv32i.py:44 | the words in between are the canonical NOP, 0x13 |
| Assembler.AddressFits | tools/rv32i.py:84-89 | a label used as an immediate arrives if and only if its address lies in the lowest or highest 2048 bytes |
| Assembler.UpperFits | tools/rv32i.py:112-113 | a 20-bit operand of lui or auipc arrives in the upper bits if and only if it is below 0x1000; otherwise its own low 12 bits are dropped |
| Assembler.ProgramDecodes | tools/rv32i.py:63-90 | decoding any word of an assembled program gives back its instruction's fields, and its immediate, label or number, negative included, exactly when it fits |
| BenchMath.MulSi3 | bench/bench.c:43-51 | the product modulo 2^32 for all operands |
| BenchMath.DivRound | bench/bench.c:60-66 | a division round never overflows its 32-bit remainder, even for divisors above 2^31 |
| BenchMath.UDivSi3 | bench/bench.c:53-68 | the quotient for every nonzero divisor, all ones for zero |
| BenchMath.UModSi3 | bench/bench.c:70-81 | the remainder for every nonzero divisor, the dividend for zero |
| BenchMath.CollectDigits | bench/bench.c:109-116 | at most ten digits, least significant first, no leading zero, inside the 12-character buffer |
| BenchMath.UPutU | bench/bench.c:109-119 | what is printed is the decimal notation: digits only, no leading zero, reads back as the number |

## Left out

- Stores below 0x1000 while the core runs: the program image is fixed, since prefetched words are not refreshed.
- Live CSR values (`cycle`, `instret`, `mip`): the sequential machine reads what the hardware shows at commit.
- Peripheral read data: a load outside the data RAM returns an arbitrary value supplied per commit; that each access is requested exactly once is proved on the traffic.
- Interrupt lines are arbitrary inputs; GPIO and timer registers are not modelled.
- Refinement and the exact condition start from reset or from any state that satisfies the invariant; a reset in the middle of a run is not modelled.
- CPU accesses to the scratchpad through port A: the scratchpad is what it is at START. Writes to the configuration are arbitrary while a job runs.
- PyModel.Run: tiles, kernel and output inside the 2048 words, where Python raises no index error, and a kernel of at least 1x1 no larger than the tile.
- SoftwareConv.ConvSw: signed overflow of the C accumulator is taken to wrap, as the compiler used does.
- UART metastability, clock mismatch between the ends and framing errors: both ends share the clock, and the receiver does not check the stop bit.
- DirJob.JobConvolves: jobs with more outputs than the scratchpad has words, which overwrite one another; `DirJob.JobFromStart` covers them.
- DirJob.SafeJobsExactly: the same jobs.
- Images of more than 1024 words, which wrap around in the instruction memory.
- Assembler.Assemble: starts from instructions whose mnemonics, registers and pseudo-instructions are already looked up; operand text is left to the reader of the text, and so are labels as shift amounts or CSR immediates. The `|` of disjoint fields is written as a sum.
- Clock and reset generation, seven-segment display, board constraints, build scripts, linker script and testbenches.
- `host_ref.c`, `bench_estimate.py`, `lint.py` and serial-port input and output.
- Simulator.Cpu.Step: the steps `Simulator.Covered` leaves out, where simulator and hardware differ, and the simulator's peripheral hook.
