# Dramite: a verified model

Dramite simulates a 386SX machine. A C++ core interprets x86 code on a thread of its own; every byte it
reads or writes becomes a bus transaction, handed over through shared variables to a tick-driven bus master
that moves the CPU pins; a clocked slave written in Verilog answers those pins, a combinational decoder picks
ROM, RAM or a hole, and two delay-counted memories reply. This project models those machines, their
composition in the order of one tick of the test bench, the core above them, two small board circuits (reset
debouncer, button) and the converter that prints a BIOS image for the FPGA. It proves what they do on all
inputs.

Each machine appears twice: as a class (or a method with loops) whose fields are the source's variables and
whose body takes the source's steps, and as a function from old state to new state that the class is proved
against. The theorems about runs are lemmas about those functions.

| file | contents |
|---|---|
| `Wrappers.dfy`, `Words.dfy` | an option type; 32-bit wrap-around, bitwise operations, masks |
| `CoreSpec.dfy`, `CpuCore.dfy` | the x86 core: specification, and the object |
| `Isa.dfy` | every installed opcode, told from its bytes alone |
| `CoreRuns.dfy`, `Instructions.dfy`, `Stack.dfy`, `Fibonacci.dfy` | every program; instructions as proofs use them; programs on the stack; the shipped program |
| `CpuSim.dfy`, `CpuInterface.dfy`, `BusMaster.dfy`, `MemSim.dfy` | bus master, bus slave, decoder, memory |
| `BusCycle.dfy` | master and slave with an arbitrary device: invariants, and exactly when a cycle ends |
| `TestBench.dfy`, `BusReads.dfy`, `CpuBus.dfy`, `BiosImage.dfy` | the whole machine; reads outside RAM |
| `RamAccess.dfy`, `Traffic.dfy`, `AfterWrites.dfy` | RAM over the whole machine: one access; all read traffic with its timetable; what a write leaves behind |
| `RomPrograms.dfy`, `Simulation.dfy` | the ROM as the core's memory; the core running on the machine, byte by byte |
| `Handshake.dfy`, `Threads.dfy` | the two threads interleaved at every shared access; the same with the whole machine under them |
| `Debounce.dfy`, `Button.dfy` | the two board circuits |
| `Bin2Mif.dfy` | the image converter and `$readmemh` |

## What the proofs found

- A cycle whose first answer comes at the slave's k-th look ends if and only if k mod 3 is not 1. The master
  polls ready every three ticks, the slave looks every two and holds ready low for two; for k mod 3 = 1 the
  pulse falls between two polls and the CPU waits for ever (`BusCycle.FirstAnswerDecides`).
- As long as nothing has been written, an access to RAM (except a write before any read) ends if and only if
  some look of the slave meets a RAM that is ready and the number of the first one is not 1 modulo 3. With
  `left` calls to go on the RAM's counter and a delay d, that first look is (left - 1) / 2 if `left` is odd,
  (left + d) / 2 if `left` and d are even, and does not exist otherwise (`RamAccess.RamAccessEnds`,
  `RamAccess.FirstReadyIs`). The counter starts with the first access to RAM and then turns for ever, because
  the read enable stays up; so whole sequences of reads have a timetable (`Traffic.NextRead`).
- For the first access to RAM after other reads `left` is zero: it ends if and only if the delay is even and
  its half is not 1 modulo 3 (`RamAccess.RamAfterReads`). The test bench builds its RAM with a delay of 2
  (sim/busmaster_tb.cpp:54), so after the first instruction fetch the first access to RAM never ends
  (`RamAccess.ShippedRamHangs`).
- Reads and writes outside RAM are never disturbed by any of this: after any history of requests in range that ends at rest they take
  five ticks and give the right byte (`AfterWrites.ReadAfterAnything`).
- Once a memory write has raised the slave's write enable, no read of RAM ever ends, whatever transactions come
  between: the enable stays up, and a RAM asked to write does not answer a read
  (`AfterWrites.ReadAfterWriteHangs`, `AfterWrites.WriteThenRead`).
- The button's lockout lasts as promised if and only if `delay_cycles` is not a power of two; for a power of
  two the counter's limit is truncated to zero and pulses can be three clocks apart
  (`Button.LockoutHolds`, `Button.PulsesThatClose`).
- The carry flag is never set by any program, so ADC and SBB are ADD and SUB (`CoreRuns.CarryNeverCounts`).
- Comments disagree with code in `debounce_rst.v`: the counter releases reset after 101 locked clocks, not
  100, and the PLL reset is asked for 97 to 99 clocks after the trigger. The model follows the code.

## Model

| member | source | states |
|---|---|---|
| `CpuCore.CPUCORE.Init` | sim/cpucore.cpp:25-38 | all registers zero but esp, no flags, the given eip, ModRM fields zero |
| `CpuCore.CPUCORE.CalcModrm` | sim/cpucore.cpp:138-142 | the masks and shifts cut a byte into its top two, middle three and low three bits |
| `CpuCore.CPUCORE.TemplateRm32R32` | sim/cpucore.cpp:175-223 | all four addressing forms, with eip past the operand and the result in memory or register |
| `CpuCore.CPUCORE.CalcRm32R32Case0to2` | sim/cpucore.cpp:225-237 | the eight operations into memory; CMP changes ZF alone |
| `CpuCore.CPUCORE.TemplateR32Rm32` | sim/cpucore.cpp:239-286 | the same forms with the register as destination |
| `CpuCore.CPUCORE.CalcR32Rm32` | sim/cpucore.cpp:288-300 | the eight operations into a register; CMP compares a pointer and so clears ZF |
| `CpuCore.CPUCORE.TemplateEaxImm32` | sim/cpucore.cpp:302-318 | immediate taken one byte after the one at eip, eip advanced by one |
| `CpuCore.CPUCORE.Group` | sim/cpucore.cpp:515-551 | groups 81 and 83 select their operation with the R field |
| `CpuCore.CPUCORE.Rm32Imm` | sim/cpucore.cpp:801-943 | the eight immediate forms of the groups, of both widths |
| `CpuCore.CPUCORE.Push` | sim/cpucore.cpp:369-415 | esp down by four, then the register stored; `push esp` stores the new pointer |
| `CpuCore.CPUCORE.Pop` | sim/cpucore.cpp:417-471 | the word at esp into the register, then esp up by four |
| `CpuCore.CPUCORE.PushImm32` | sim/cpucore.cpp:473-480 | the immediate is fetched before it is stored |
| `CpuCore.CPUCORE.PushImm8` | sim/cpucore.cpp:482-488 | one byte stored, zero at an odd address |
| `CpuCore.CPUCORE.JumpImm8` | sim/cpucore.cpp:490-513 | signed displacement from the next instruction, taken or not |
| `CpuCore.CPUCORE.MovRm32R32` | sim/cpucore.cpp:553-595 | the store forms, the displacement of form 2 ignored as in the source |
| `CpuCore.CPUCORE.MovR32Rm32` | sim/cpucore.cpp:597-645 | the load forms, without a byte swap as in the source |
| `CpuCore.CPUCORE.XchgEaxR32` | sim/cpucore.cpp:651-657 | three exclusive-ors with the register named by the opcode byte behind eip |
| `CpuCore.CPUCORE.MovImm32` | sim/cpucore.cpp:659-729 | the little-endian immediate into the register, eip past it |
| `CpuCore.CPUCORE.Ret` | sim/cpucore.cpp:731-735 | eip is the word on the stack; esp stays |
| `CpuCore.CPUCORE.Leave` | sim/cpucore.cpp:737-744 | esp from ebp, then ebp popped |
| `CpuCore.CPUCORE.CallImm32` | sim/cpucore.cpp:746-757 | eip pushed, then the displacement and one added |
| `CpuCore.CPUCORE.JmpImm32` | sim/cpucore.cpp:759-766 | the displacement and one added |
| `CpuCore.CPUCORE.OpcodeFF` | sim/cpucore.cpp:781-799 | inc or dec through the table, then eip up by one; other R do nothing |
| `CpuCore.CPUCORE.Execute` | sim/cpucore.cpp:171-173 | every installed handler does what the specification says |
| `CpuCore.CPUCORE.Run` | sim/cpucore.cpp:156-169 | the fetch loop, up to any number of instructions, is iteration of the specified step |
| `CoreSpec.SwapBytes` | sim/cpucore.cpp:965-974 | the swap reverses the four bytes of every word |
| `CoreSpec.WordFromBytes` | sim/cpubus.cpp:59-87 | the big-endian byte read followed by the swap is the little-endian word |
| `CoreSpec.OpcodeBehind` | sim/cpucore.cpp:156-165 | in every handler the byte behind eip is the opcode that was dispatched |
| `Isa.ResultComputes` | sim/cpucore.cpp:225-237 | the seven operations obey their laws: sums modulo 2^32, differences undone by adding, and, or and exclusive or bit by bit |
| `Isa.AluRegisters` | sim/cpucore.cpp:175-300 | fetched `op r/m32, r32` and `op r32, r/m32` between any two registers, by those laws; nothing else changes |
| `Isa.CompareRegisters` | sim/cpucore.cpp:297 | the register comparisons clear the zero flag, whatever the operands, and change nothing else |
| `Isa.AluEax` | sim/cpucore.cpp:302-318 | fetched `op eax, imm32`, comparison included, with the immediate one byte late |
| `Isa.AluGroup` | sim/cpucore.cpp:515-551 | fetched groups 81 and 83: the operation that the R field counts, on the register that M names, for every immediate |
| `Isa.AluIntoMemory` | sim/cpucore.cpp:175-237 | fetched `op [..], r32` in its three forms: the big-endian operand, the result little-endian in the aligned word, and every other byte, register and flag as before |
| `Isa.CompareMemory` | sim/cpucore.cpp:64-65 | both memory comparisons set the zero flag exactly if operand and register are equal |
| `Isa.AluFromMemory` | sim/cpucore.cpp:239-286 | fetched `op r32, [..]` in its three forms |
| `Isa.MovStore` | sim/cpucore.cpp:553-587 | fetched stores: the register little-endian in the aligned word, at the base register alone when the displacement has 32 bits |
| `Isa.MovLoad` | sim/cpucore.cpp:597-645 | fetched loads: the operand with its first byte on top |
| `Isa.MovRegisters` | sim/cpucore.cpp:588-593 | fetched moves between registers, both encodings |
| `Isa.MovImmediate` | sim/cpucore.cpp:659-729 | fetched `mov r32, imm32` |
| `Isa.JumpShort` | sim/cpucore.cpp:490-513 | je jumps exactly if bit 6 of eflags is set, jne exactly if it is clear, jmp always, to the next instruction plus the signed byte, for every byte |
| `Isa.JumpNear` | sim/cpucore.cpp:759-766 | where the 32-bit jump really goes: the opcode's address plus two plus the displacement |
| `Isa.CallNear` | sim/cpucore.cpp:746-757 | call goes there too, with the address of its displacement pushed |
| `Isa.Return` | sim/cpucore.cpp:731-735 | ret goes to the word at esp and leaves esp |
| `Isa.Halt` | sim/cpucore.cpp:776-779 | hlt ends the run with everything else as it was |
| `Isa.Nothing` | sim/cpucore.cpp:647-649 | nop and the two prefixes move eip by one |
| `Isa.Count` | sim/cpucore.cpp:351-367 | inc and dec of every register, flags untouched |
| `Isa.GroupFFCounts` | sim/cpucore.cpp:781-799 | group FF counts a register up or down, or does nothing |
| `Isa.Exchange` | sim/cpucore.cpp:651-657 | fetched `xchg eax, r32` swaps, for every register |
| `Isa.Push` | sim/cpucore.cpp:369-415 | fetched push: four bytes below esp, and nothing else |
| `Isa.Pop` | sim/cpucore.cpp:417-471 | fetched pop, into esp too |
| `Isa.PushWordImmediate` | sim/cpucore.cpp:473-480 | fetched `push imm32` |
| `Isa.PushByteImmediate` | sim/cpucore.cpp:482-488 | fetched `push imm8`: one byte at the new esp, zero if that is odd |
| `Isa.LeaveFrame` | sim/cpucore.cpp:737-744 | fetched leave |
| `Isa.StepEnds` | sim/cpucore.cpp:41-128 | a step crashes at exactly the opcodes without a table entry, stops at eip or opcode zero, and otherwise goes on |
| `CoreRuns.EveryRun` | sim/cpucore.cpp:131-142 | in every state of every program from `init`, eflags is 0 or ZF and modrm = 64 mod + 8 R + M (the field split of section 17.2.1 of the Intel 80386 Programmer's Reference Manual) |
| `CoreRuns.ExecOnlyZF` | sim/cpucore.cpp:945-951 | no instruction sets any flag but ZF |
| `CoreRuns.ExecDecoded` | sim/cpucore.cpp:138-142 | every instruction keeps the field split |
| `CoreRuns.CarryNeverCounts` | sim/cpucore.cpp:225-318 | every program runs the same on a core with ADC and SBB replaced by ADD and SUB in all templates and groups |
| `CoreRuns.XchgSwaps` | sim/cpucore.cpp:651-657 | the index is 1 to 7, and the sequence swaps the two registers and changes nothing else |
| `CoreRuns.GroupFFRedispatch` | sim/cpucore.cpp:781-799 | re-dispatch goes once, to an inc or dec of register M, or nowhere |
| `Words.MaskLow` | sim/cpucore.cpp:138-142 | masking with low ones is a remainder, for every width |
| `Fibonacci.Pass` | test/fibonacci.asm:23-29 | one pass of the loop through fetch, decode and execute, in eleven instructions |
| `Fibonacci.Passes` | test/fibonacci.asm:23-29 | any number of passes up to 2^32 leaves the Fibonacci numbers, ecx counting down modulo 2^32 |
| `Fibonacci.WholeRun` | test/fibonacci.asm:7-30 | for any count, place, registers and surrounding memory: stops after exactly 10 + 11 N instructions with F(N+1) and F(N) mod 2^32, ecx 0, ZF set, memory untouched |
| `Fibonacci.ShippedRun` | test/fibonacci.asm:7-9 | the program as shipped leaves 55 and 34 |
| `Stack.StoreWord` | sim/cpubus.cpp:109-116 | two half-word writes at an aligned address read back as the word, and no other byte changes |
| `Stack.PushRefines` | sim/cpucore.cpp:369-415 | a push appends one word to the stack of an abstract machine and touches only its four bytes |
| `Stack.PopRefines` | sim/cpucore.cpp:417-471 | a pop takes the abstract machine's last word into its register and leaves memory alone |
| `Stack.AbsKeeps` | sim/cpucore.cpp:369-480 | on the abstract machine, words below the shallowest point and registers not popped into keep their values |
| `Stack.SequenceRefines` | sim/cpucore.cpp:369-480 | any program of pushes, immediate pushes and pops, fetched and run anywhere its stack does not reach, leaves the registers and the words below any aligned base that a machine of eight registers and a list of words has, up to 2^30 words and across the address wrap; other bytes keep their values |
| `Stack.PushThenPop` | sim/cpucore.cpp:393-450 | push r, pop r keeps all eight registers, for every r including esp |
| `Stack.EnterFrame` | sim/cpucore.cpp:553-595 | `push ebp; mov ebp, esp`, fetched and run, leave the saved word on the stack and both registers pointing at it |
| `Stack.LeaveRestores` | sim/cpucore.cpp:737-744 | after any body that keeps ebp, leave restores esp; it restores ebp exactly if the saved word is intact |
| `Stack.BalancedFrame` | sim/cpucore.cpp:399-403 | a whole function, entry, any body of stack instructions within its frame, leave, run from its code: esp and ebp are as before, the other registers what the abstract machine says |
| `CpuSim.CPUSIM.Tick` | sim/cpusim.cpp:95-187 | one call of `apply`: reset edge, and the five bus states |
| `CpuSim.CPUSIM.BusTransaction` | sim/cpubus.cpp:31-39 | the stores before the wait replace the request and clear completed |
| `CpuInterface.CPU_INTERFACE.Posedge` | rtl/cpu_interface.v:101-220 | one clock of the slave: S0 to S4, with every register and both internal buses |
| `BusMaster.BUSMASTER.Eval` | rtl/busmaster.v:162-230 | one evaluation of the decoder, unassigned enables keeping their value |
| `BusMaster.MemoryMap` | rtl/busmaster.v:179-204 | the decode is a partition of the 24-bit space into the two ROM windows, the two holes and RAM, and does not cut a word |
| `MemSim.MEMSIM.Access` | sim/memsim.cpp:70-125 | one call of `apply` on the array, the counter and the held outputs |
| `MemSim.MEMSIM.Load` | sim/memsim.cpp:41-64 | the zeroing loop and the file read leave the file, little-endian, followed by zeros or cut |
| `MemSim.ImageBytes` | sim/memsim.cpp:56-63 | byte k of a loaded memory is byte k of the file, or zero past its end |
| `MemSim.Selected` | sim/memsim.cpp:80-87 | the select word has ones in exactly the selected lanes |
| `MemSim.MergeLanes` | sim/memsim.cpp:94-97 | a masked write replaces exactly the selected bytes |
| `MemSim.MergeTwice` | sim/memsim.cpp:94-97 | repeating a masked write changes nothing |
| `MemSim.RefinesBytes` | sim/memsim.cpp:70-125 | after any trace of calls memory is a plain byte array with the accepted writes stored in it |
| `MemSim.AcceptedRead` | sim/memsim.cpp:108-112 | an accepted read returns that array's bytes, with valid alone up |
| `MemSim.AlwaysSane` | sim/memsim.cpp:89-124 | the counter stays within the delay, and ack and valid are never both up |
| `MemSim.BusyAfter` | sim/memsim.cpp:120-124 | after an accepted call the counter runs down from the delay, one a call |
| `MemSim.Spacing` | sim/memsim.cpp:89-124 | accepted calls are at least delay + 1 apart, and a call that far away is accepted exactly if it asks |
| `MemSim.Sustained` | sim/memsim.cpp:89-124 | under sustained enable exactly every (delay+1)-th call is accepted |
| `MemSim.BeyondSkipped` | sim/memsim.cpp:75-78 | calls beyond the array move neither memory, counter nor outputs: any trace does what it does without them |
| `TestBench.TESTBENCH.Tick` | sim/busmaster_tb.cpp:94-154 | CPU, both memories, evaluation, edge, evaluation, in that order, is the composed step |
| `TestBench.TESTBENCH.Reset` | sim/busmaster_tb.cpp:156-162 | one tick with reset up |
| `TestBench.TESTBENCH.constructor` | sim/busmaster_tb.cpp:51-54 | the parts as built: 64 KB of ROM without delay, and a RAM |
| `TestBench.LinkRuns` | sim/busmaster_tb.cpp:94-154 | master and slave inside the whole machine run as they do with some device in place of the rest |
| `BusCycle.ResetSlave` | rtl/cpu_interface.v:102-108 | reset leaves the slave idle, not ready and not driving, with both internal addresses zero, from any state |
| `BusCycle.TickKeeps` | rtl/cpu_interface.v:95-214 | one tick keeps the invariant, whatever the device answers |
| `BusCycle.EveryHistory` | rtl/cpu_interface.v:95-118 | in every history of ticks and requests from a state that meets them: data driven only in S3 or S0, ready low only there, pins held during a cycle, address bits 31 to 24 zero |
| `CpuBus.EveryHistoryFromReset` | rtl/cpu_interface.v:101-118 | the machine after reset meets them, so they hold in every history from reset, and the D/C, hold-acknowledge and lock pins never move |
| `BusCycle.PinsStable` | sim/cpusim.cpp:120-182 | address, direction and enables stay from acceptance to completion |
| `BusCycle.ConstantPins` | sim/cpusim.cpp:137-144 | D/C and lock stay high and hold-acknowledge low in every history |
| `BusCycle.AddressLatched` | rtl/cpu_interface.v:114-130 | at acceptance the slave takes word address, read enable and byte lanes of the request on the bus it is for, and leaves the other bus alone |
| `BusCycle.WriteLatched` | rtl/cpu_interface.v:133-152 | the half word the slave takes in S1 is the one requested, and the other half stays |
| `BusCycle.IoWriteLatched` | rtl/cpu_interface.v:144-151 | the same on the I/O bus |
| `BusCycle.ReachesCheck` | rtl/cpu_interface.v:155-214 | the slave looks for an answer at ticks 2 + 2k, the master then being at k mod 3 of its poll |
| `BusCycle.FirstAnswerDecides` | sim/cpusim.cpp:148-182 | first answer at look k: complete after exactly 5+2k or 4+2k ticks with that look's data if k mod 3 is 0 or 2, and never if it is 1 |
| `BusCycle.SilenceNeverCompletes` | sim/cpusim.cpp:164-180 | without an answer at a look the cycle never ends |
| `BusCycle.BackToBack` | sim/cpusim.cpp:119-182 | in any series of transactions each again meets the slave in S0 and takes its own duration, up to the first that never ends |
| `BusReads.OutsideTransaction` | rtl/busmaster.v:179-203 | a half-word read or write of ROM or a hole takes exactly five ticks; a read gives the map's half word, a write changes neither memory; with the RAM's enables up or down |
| `BusReads.ReadTransaction` | rtl/busmaster.v:162-203 | the case of a read |
| `BusReads.IoWrite` | rtl/busmaster.v:219-230 | an I/O write takes exactly five ticks, ends with its address, half word and lanes on the I/O bus, and disturbs neither memory |
| `CpuBus.ReadByte` | sim/cpubus.cpp:44-53 | a byte read takes five ticks and returns the byte of the memory map |
| `CpuBus.AllReads` | sim/cpubus.cpp:29-53 | any sequence of byte reads outside RAM with any idle time between returns the map's bytes, in call order, each complete at its fifth tick and not before |
| `CpuBus.AllReadsFromReset` | sim/busmaster_tb.cpp:177-196 | the same from power-up through reset, for every ROM image |
| `CpuBus.ResetQuiet` | sim/busmaster_tb.cpp:156-162 | reset and one tick start the core and leave the machine at rest |
| `CpuBus.Windows` | rtl/busmaster.v:179-203 | the two ROM windows show the same bytes of every image, the holes show zero |
| `CpuBus.ReadUint8` | sim/cpubus.cpp:44-53 | the call itself, ticking the object until completed: the map's byte in five ticks, for every 32-bit address that does not go to RAM |
| `RomPrograms.ReadUint32` | sim/cpubus.cpp:59-87 | four byte reads make the core's 32-bit read of the memory map, in twenty ticks |
| `RomPrograms.FibonacciFromRom` | sim/cpusim.h:54-56 | with the program at the start of any image, the core started at 0xF0000 runs it in the memory that the bus shows |
| `Simulation.StepIsLocal` | sim/cpucore.cpp:156-173 | an instruction without a memory operand does the same in any memory that agrees on its own bytes |
| `Simulation.FetchAndExecute` | sim/cpucore.cpp:156-173 | one such instruction with every byte fetched over the ticking machine: the core does what it does in the memory map, in five ticks a byte |
| `Simulation.StepOnPath` | test/fibonacci.asm:16-30 | every instruction of the program leads to the next or halts, and the bytes left to fetch fall by its length |
| `Simulation.RunProgram` | sim/cpucore.cpp:156-169 | the core object and the machine object run the program to its halt: F(N+1) and F(N), and exactly 5 (21 + 17 N) ticks |
| `Simulation.Boot` | sim/busmaster_tb.cpp:177-191 | building, loading and resetting the machine leaves it at rest with the file in the ROM, after two ticks |
| `Simulation.Simulate` | sim/busmaster_tb.cpp:177-196 | `main` with any file that starts with the program, from construction to the halt |
| `BiosImage.WindowShowsFile` | sim/busmaster_tb.cpp:82-84 | both windows show the loaded file, modulo 64 KB |
| `BiosImage.FileOverTheBus` | sim/busmaster_tb.cpp:177-196 | from power-up any sequence of byte reads of the ROM windows returns the bytes of the file, each after exactly five ticks |
| `RamAccess.FirstReadyIs` | sim/memsim.cpp:89-124 | the closed form of the first look of the slave that meets a RAM at any point of its delay ready, and when there is none |
| `RamAccess.RamAccessEnds` | sim/memsim.cpp:89-124 | with nothing written before and the RAM at any point of its delay, an access that meets a raised read enable, or raises it, ends exactly if there is such a look k and k mod 3 is not 1, in exactly 5+2k or 4+2k ticks, with the word in RAM |
| `RamAccess.FirstAccess` | sim/memsim.cpp:89-124 | for a RAM not asked before: exactly if the delay is even and its half is not 1 modulo 3 |
| `RamAccess.RamAfterReads` | sim/busmaster_tb.cpp:51-54 | that first access from power-up, after any reads elsewhere, with the word read, or the bytes written for ever |
| `RamAccess.EndedWriteStores` | sim/memsim.cpp:90-101 | a write after reads, if it ends, has replaced exactly its enabled bytes, and RAM stays so for ever |
| `RamAccess.ShippedRamHangs` | sim/busmaster_tb.cpp:54 | with the delay of the test bench the first access to RAM after reads elsewhere never ends |
| `RamAccess.FirstWriteCompletes` | rtl/cpu_interface.v:126-176 | a first write of any enables to RAM of any delay is complete after five ticks |
| `RamAccess.FirstWriteStores` | rtl/busmaster.v:204-213 | RAM then holds the old words with exactly the enabled bytes of the half word replaced, for ever |
| `RamAccess.WriteAfterReset` | rtl/cpu_interface.v:101-153 | both, from power-up through reset and any idle time |
| `AfterWrites.EveryHistory` | rtl/cpu_interface.v:101-142 | in every history of ticks and requests in range, every address shown to a memory is inside it, and the write enable, once up, stays up |
| `AfterWrites.CourseHolds` | rtl/busmaster.v:162-215 | in every history of ticks and requests in range from reset the ROM is as loaded, the decoder shows the slave's port, and once answered, what the RAM is told to write is there already |
| `AfterWrites.ReadAfterAnything` | rtl/busmaster.v:179-203 | from power-up, after any such history that ends at rest, writes to ROM, holes and RAM included, a byte read outside RAM takes exactly five ticks, gives the map's byte and leaves RAM alone |
| `AfterWrites.WriteOutsideAfterAnything` | rtl/busmaster.v:188-202 | and a write to a ROM window or hole takes five ticks and changes neither memory |
| `AfterWrites.IoWriteAfterAnything` | rtl/busmaster.v:219-230 | an I/O write after any such history: the same as when quiet |
| `AfterWrites.ReadAfterWriteHangs` | rtl/cpu_interface.v:133-142 | after any such history in which the write enable has gone up, a read of RAM never completes |
| `AfterWrites.WriteThenRead` | rtl/cpu_interface.v:133-142 | so from power-up a write of RAM completes, and after it, whatever comes between, no read of RAM does |
| `Traffic.AfterAll` | sim/busmaster_tb.cpp:94-154 | from power-up, any sequence of byte reads of ROM, holes and RAM whose timetable lets each end leaves the machine quiet, RAM as it was, and the RAM's counter where the timetable says |
| `Traffic.NextRead` | sim/cpubus.cpp:29-53 | the next read then completes at exactly the tick of the timetable with the byte of the whole memory map, or, if the timetable has none, never |
| `Handshake.DoKeeps` | sim/cpusim.cpp:121-178 | every step of either thread keeps the invariant |
| `Handshake.EveryInterleaving` | sim/cpubus.cpp:29-42 | over every interleaving: one phase at a time, accepted transactions a prefix of the issued ones with all fields, each returned once, reads with their own sample |
| `Handshake.NoRace` | sim/cpusim.cpp:164-176 | the unlocked store of the answer meets a waiting CPU thread; requests are stored only while the master is idle and nothing is pending |
| `Handshake.NeverStuck` | sim/cpusim.cpp:171-177 | no reachable state is a deadlock, and no wakeup is lost |
| `Handshake.RunRefines` | sim/cpusim.cpp:120-182 | every interleaving of field accesses, with any pins, refines the protocol of atomic posts and ticks used in the other modules |
| `Threads.StepKeeps` | sim/cpusim.cpp:119-182 | every step of either thread, with the whole machine ticking under the bus master, keeps the machine on the course of a read |
| `Threads.EveryReadInEveryInterleaving` | sim/cpubus.cpp:29-42 | from power-up, in every interleaving of the two threads with the whole machine, every read outside RAM that has returned has returned the map's half word |
| `Threads.NeverStuck` | sim/cpusim.cpp:164-180 | and no such interleaving gets stuck, or finds ready high when the master looks |
| `Threads.ExpectedByte` | sim/cpubus.cpp:44-53 | the byte that `read_uint8` picks from that half word is the map's |
| `Debounce.DEBOUNCE_RST.Posedge` | fpga/ml505/Dramite/debounce_rst.v:58-93 | the three clocked blocks |
| `Debounce.SamplesAre` | fpga/ml505/Dramite/debounce_rst.v:58-61 | the register holds the last ten inputs |
| `Debounce.EdgeAtNine` | fpga/ml505/Dramite/debounce_rst.v:63-66 | the edge is seen exactly when the current run of ones is nine long |
| `Debounce.OncePerRun` | fpga/ml505/Dramite/debounce_rst.v:63-66 | so once in every run of nine or more, never in a shorter one |
| `Debounce.RingAlways` | fpga/ml505/Dramite/debounce_rst.v:73-77 | the ring always holds exactly one zero |
| `Debounce.Flight` | fpga/ml505/Dramite/debounce_rst.v:73-77 | a trigger sends the zero once round, whatever the inputs in between |
| `Debounce.FlightOutputs` | fpga/ml505/Dramite/debounce_rst.v:79-95 | reset active for exactly 99 clocks, PLL reset in exactly the last three |
| `Debounce.CounterAlways` | fpga/ml505/Dramite/debounce_rst.v:86-93 | the counter is a function of the time locked, between 127 and 228 |
| `Debounce.ResetExactly` | fpga/ml505/Dramite/debounce_rst.v:95-98 | reset is released exactly when locked for 101 clocks and the zero has landed |
| `Button.Log2` | fpga/ml505/Dramite/button.v:91-99 | the loop's result w has 2^(w-1) < n <= 2^w for n from two on |
| `Button.LimitFits` | fpga/ml505/Dramite/button.v:67 | the truncated delay is the delay, or zero for a power of two |
| `Button.BUTTON.Posedge` | fpga/ml505/Dramite/button.v:43-89 | next-state logic and clocked block |
| `Button.PulsesApart` | fpga/ml505/Dramite/button.v:48-75 | any two pulses of any trace are at least limit + 3 clocks apart |
| `Button.PulseExactly` | fpga/ml505/Dramite/button.v:48-75 | for every trace: a pulse comes exactly when the input is high and, since every earlier pulse, the button has been released and the wait has run out |
| `Button.ReleasedBetween` | fpga/ml505/Dramite/button.v:57-64 | between two pulses the button was up, so a held button gives one |
| `Button.PulsesThatClose` | fpga/ml505/Dramite/button.v:48-75 | and that distance is reached |
| `Button.LockoutHolds` | fpga/ml505/Dramite/button.v:28-29 | pulses keep delay_cycles + 3 clocks apart if and only if delay_cycles is not a power of two |
| `Bin2Mif.FieldDigits` | tools/bin2mif.cpp:29-32 | width two and fill zero give two upper-case digits for every byte |
| `Bin2Mif.LinesShape` | tools/bin2mif.cpp:28-34 | every line is eight upper-case digits and a newline |
| `Bin2Mif.Convert` | tools/bin2mif.cpp:26-34 | the loop prints the buffer's lines, for a file of any length; they read back as the words loaded from the file exactly if the file fills the buffer or the buffer was zero past its end |
| `Bin2Mif.RoundTrip` | fpga/ml505/Dramite/bios_rom.v:32-34 | for any file and number of words within it, the text read by `$readmemh` (section 17.2.9 of IEEE Std 1364-2005) is word for word what `MEMSIM::load` builds |

## Left out

- Calls through an empty entry of the instruction table: one stuck outcome, `Crashed`, without a state.
- CpuCore.CPUCORE.Run: takes a bound on the number of instructions; the source loop has none.
- CpuCore.CPUCORE.CalcR32Rm32: the register-form comparison subtracts an integer from a pointer and tests it for null (sim/cpucore.cpp:297); modelled as a pointer that is never null.
- The core's class runs on an ideal byte memory. It runs on the machine itself for instructions that read nothing but their own bytes, each fetched whole, in the order of its reads, before the core executes it.
- CpuBus.ReadUint8: not for addresses in RAM, where the call may never return; `Traffic.NextRead` says exactly when it does.
- RomPrograms.ReadUint32: likewise not for addresses in RAM.
- Writes after a write to RAM: the slave never lowers its enables (rtl/cpu_interface.v:119, 142), so RAM first repeats the old data at the new address; no read can see the result, since reads of RAM no longer end.
- MemSim.MEMSIM.Access: the word just past the end passes the source's bounds test and lies outside its array, so an enabled access to it is not modelled. The delay is a natural number; the source's counter has 32 bits.
- TestBench.TESTBENCH.Tick: for the same reason not for a tick in which a memory is asked for the word just past its end. Accesses further out leave the RAM and its outputs as they were.
- `write_uint8` and `write_uint32` as bus transactions: the core's memory is written as they would write it (a byte at an odd address is shifted out of its 8-bit parameter), but the pair of half-word transactions is not run on the machine.
- I/O reads: the slave waits for the memory's valid signal (rtl/cpu_interface.v:194), as modelled; the core never requests one, and no theorem says what it returns.
- A second reset, which joins a CPU thread that may be blocked (sim/cpusim.cpp:95-105).
- Fairness of the scheduler and of the mutex: the handshake is proved safe and never stuck, not that a given thread runs.
- Condition-variable and memory-model detail below one access: each shared access is atomic.
- Tri-state pins: the data bus is the resolved value, the slave's word while it drives and the last driven value otherwise.
- Registers without an initial value (the slave's, the debouncer's samples) start at zero.
- Elaboration faults: `bus_io_address` in rtl/cpu_interface.v:123 is taken as `io_address`, the missing semicolon at rtl/busmaster.v:160 as present.
- `cpu_a` is the 23 address pins; higher bits of the shifted address are dropped.
- MemSim.MEMSIM.Load: the file is its bytes; opening it, and the second overload that copies into memory, are not modelled.
- The start-up PLL reset from the `SRL16E` primitive, and the PLL itself: inputs, or absent.
- `pressed_disp`, button state 3 (never entered from reset), and button delays below two.
- Bin2Mif.Convert: argument parsing and the default size; a size that is no multiple of four reads past the buffer.
- Of `$readmemh`, comments, addresses and unknown digits, which the converter never prints.
- The LED, VGA and debug outputs, tracing, printing, signal handling, rtl/mem_bus.v.
- Conformance of the core to the 80386: where the code departs from the manual, in lengths, displacements or byte order, the model follows the code.
