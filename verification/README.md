# Boa32: verified models of a RISC-V microcontroller

Boa32 is a 32-bit RISC-V microcontroller: a pipelined core, a write-back cache in front of slow
external memory, a UART, a boot ROM that speaks a small packet protocol, and a few host tools. This
project models the parts whose behaviour is hard to see from the code and proves what they are for.

A clocked module is a class. Its fields are the registers, its combinational logic is functions, and
one method is one rising edge, proved equal to a function of the old registers. What holds over every
run is then proved about those functions. C, assembly and Python code that works in place is a class
with methods and loops; the tables and translations are functions.

| file | what it models |
|---|---|
| `Words.dfy` | bytes, 32-bit words as byte lanes, byte-enabled writes |
| `Numbers.dfy` | shifts and OR on unbounded numbers |
| `CacheSpec.dfy` | the cache as a phase machine beside an external memory, and its equality with one flat memory |
| `CacheStrays.dfy` | exactly which memory timings the cache is right under |
| `CacheRtl.dfy` | the cache's registers and both combinational blocks, one edge being one phase step |
| `Pipeline.dfy`, `PipelineReady.dfy` | ID, EX, MEM and WB with forwarding and stalls, against sequential execution; whole programs beside a ready memory |
| `Fifo.dfy`, `Uart.dfy`, `UartLink.dfy`, `UartTiming.dfy` | circular buffer, transmitter, receiver, two of them joined by a wire, and when bits are sent and sampled |
| `Divider.dfy`, `Placement.dfy`, `SignedDivider.dfy` | restoring divider with any register placement, the placement rule, the signed wrappers |
| `Arithmetic.dfy` | the shared adder and comparator, the AMO adder, the multiplier |
| `SoftDivide.dfy` | the 64-bit divide on 32-bit register pairs |
| `Framing.dfy`, `Receiver.dfy`, `Upload.dfy`, `UploadOutcome.dfy` | packet format, byte-driven parsers, upload with retries, and which uploads succeed |
| `Pmp.dfy`, `Napot.dfy`, `PmpRegions.dfy` | PMP registers, locks and checks; the NAPOT encoder against the NAPOT match; the addresses each mode covers |
| `Demux.dfy` | round-robin arbiter and memory demultiplexer |
| `Sram.dfy`, `SramBytes.dfy` | byte lanes and the 8-bit SRAM controller; what they do to each byte, and when |
| `Rvc.dfy`, `RvcEncoding.dfy` | the RV32C expander against chapter 16 of the unprivileged ISA (20191213), and its output against the base formats |
| `Image.dfy` | hexadecimal image writer and block RAM loader |
| `Mapping.dfy` | bit mappings: apply, invert, compose, runs |

## Where the code does less than its description

- **Cache.** In the first cycle of an eviction the cache drives a write before it has set one up
  (`dev/hdl/mem/cache.sv:376-380`): the address was latched from an undriven bus in the cycle before, the data
  is left over from an earlier eviction. A memory that is unready and takes that write over loses the word
  there (`StrayWrites`). The bus asks memories to be ready while idle (`hdl/modules/boa_memory.sv:139`), but the
  round-robin demultiplexer shows an idle port unready and passes its request on in the same cycle
  (`hdl/modules/boa_memory.sv:523`, `TakenOverWhileUnready`; the lemma is about that module, while the shipped
  crossbar puts the static arbiter behind an address multiplexer). A memory that turns ready to a refill it has
  not taken over gets its idle data bus cached (`HollowFills`). `FlatExactly` proves that the cache is one flat
  memory under exactly the schedules in which neither happens. `StraysAreReachable` reaches the first from any
  blank cache with three tags, below which nothing is ever evicted, and `HollowsAreReachable` the second.
- **Pipeline.** The CSR port looks at the word in EX without asking whether it is valid or stalled
  (`hdl/stages/boa_stage_mem.sv:371-389`). If a load waits in MEM while the undefined word of a bubble in EX
  reads as a CSR access, the load retires with CSR data. `ResetRunExactly` proves that a run stays in step with
  sequential execution exactly if no load retires so, and `StrayCsrWord` gives such a run for any load.
- **Upload.** A retried upload is not always safe. A write command whose type byte 0x10 is garbled into
  0x12 is taken for P_WDATA: its eight payload bytes are stored at the old write address before the
  checksum rejects the frame (`prog/bootloader/src/main.c:252-254`). `OneBitStrays` shows that one flipped
  bit does it, and `UploadLawExactly` that the upload law holds for exactly the lines that never do this.
  Nor does the programmer say when a block has failed: `write_mem` drops each block's result and always returns
  true (`tools/programmer/src/main.c:296-302`). The `ok` of `WriteImage` is the result it drops.
- **Divider registers.** Divider latencies are documented as 0 to 33 (`hdl/boa32_cpu.sv:59`). The placement rule
  puts down the requested number only under the condition `Fits`; `ChosenTotal` proves it both ways, and
  `MisfitsExist` gives plans that do not fit. EX holds its operands while it stalls, so it still gets the right
  result from every plan with too few registers (`DivideInEx`). Only "all" with one cycle of latency puts down
  more than asked for, and EX then takes the quotient of the operands before (`ShortStall`).
- **64-bit divide.** The routine compares its operands with a cached dividend and divisor that nothing ever
  stores, so the cached result is never used. `Routine.Divide` shows that branch unreachable.
- **Demultiplexer.** The arbiter is round-robin only from idle. While any port requests, the owner keeps
  custody, even if it asks for nothing itself (`BusyPortsPinTheOwner`).
- **AMO comparator.** The flag named "greater or equal" is strictly greater, as the adder has no carry in
  (`CarryIsGreater`); minimum and maximum are right all the same (`AtomicExtremes`).
- **Composition of mappings.** The law holds for all integers if and only if no two bits that pass through
  both mappings meet at one destination (`CompositionLawExactly`).
- **Reserved compressed encodings.** All are refused except C.LUI and C.ADDI16SP with a zero immediate
  (`RefusedExactly`).

## Assumptions on the surroundings

- Cache: two ways, all lines invalid at the start, clients that hold a request until it is answered, no
  flush, no reset during the run, `writeable` set. Nothing is assumed of external memory's timing.
- Pipeline: the ALU, multiplier, divider and data memory are arbitrary functions, so the theorem does not
  depend on what they compute; memory may be unready in any cycle, ID may be held back in any cycle, any
  multiplier or divider latency is allowed, and a bubble carries any word at all. The core is in machine mode:
  in a lower mode `hdl/stages/boa_stage_id.sv:201` raises a trap for a privileged word even in a bubble.
- Divider placement: the tally is an exact real number, where the source has a floating-point one.
- UART: the dividers stay fixed during a run; FIFO depths are powers of two, as their pointers are plain
  binary counters.
- SRAM: the chip drives its data lines on a plain read and takes data at the clock edge on a write; what
  floats on the lines otherwise is an input.
- Image loader: the write address starts at 0; the source leaves it uninitialised. A word is 32 bits.
- The wires of any clocked module that the design leaves undefined are inputs too.

## Model

| member | source | states |
|---|---|---|
| CacheSpec.HoldRefines | dev/hdl/mem/cache.sv:285-288 | an unready memory holds a refill or eviction up without changing cache or flat memory, whether or not it takes the pending read over late |
| CacheSpec.IdleRefines | dev/hdl/mem/cache.sv:334-343 | a cycle with nothing requested keeps the invariant and every word of the flat memory |
| CacheSpec.HitRefines | dev/hdl/mem/cache.sv:391-405 | a hit returns the flat memory's word and changes exactly its enabled bytes, in the cache |
| CacheSpec.DirtyMissRefines | dev/hdl/mem/cache.sv:406-415 | starting a write-back leaves the flat memory as it was |
| CacheSpec.CleanMissRefines | dev/hdl/mem/cache.sv:416-429 | replacing a clean line leaves the flat memory as it was |
| CacheSpec.EvictRefines | dev/hdl/mem/cache.sv:297-305 | each evicted word keeps "cache if resident, else external memory" for every address |
| CacheSpec.FillRefines | dev/hdl/mem/cache.sv:289-296 | each refilled word keeps it too, the line counting only as far as it is filled |
| CacheSpec.CycleRefines | dev/hdl/mem/cache.sv:255-487 | any safe cycle, ready or not, keeps the invariant: one matching way, dirty implies valid, clean lines equal external memory; a completed read returns the latest bytes |
| Words.MergeLanes | dev/hdl/mem/cache.sv:198-206 | a byte-enabled write changes exactly the enabled lanes |
| CacheSpec.AccessWritesBytes | dev/hdl/mem/cache.sv:391-405 | after a completed access byte k at its address is its own byte k if enable k is set, and every other byte of memory is as before |
| CacheSpec.StrayWrites | dev/hdl/mem/cache.sv:376-380 | an eviction's first cycle taken over unready turns exactly the word at the left-over address, if not resident, into the left-over data |
| CacheSpec.HollowFills | dev/hdl/mem/cache.sv:367-375 | a ready refill that was never taken over acts exactly as if memory held what its idle data bus carried |
| CacheSpec.RunIsFlat | dev/hdl/mem/cache.sv:255-487 | the accesses of a run of safe cycles are those of one flat memory, whatever the wait states and late take-overs |
| CacheSpec.BlankRunIsFlat | dev/hdl/mem/cache.sv:255-487 | the same from an all-invalid cache, with external memory's contents as the flat memory |
| CacheSpec.FlatLogBytes | dev/hdl/mem/cache.sv:255-487 | accesses are those of a flat memory if and only if each byte of each is the one put there by the latest access that enabled it, or else memory's own |
| CacheSpec.Progress | dev/hdl/mem/cache.sv:447-471 | every request is answered after an exact number of cycles, those aside in which memory holds it up; at most two line transfers and two |
| CacheSpec.RequestsByte | dev/hdl/mem/cache.sv:391-405 | what counts as a request is a read, or a write to any byte |
| CacheStrays.DirtyMissCanStray | dev/hdl/mem/cache.sv:325-333 | every miss on a dirty line can stray in the next cycle, at whatever address the undriven bus carried |
| CacheStrays.TwinCycle | dev/hdl/mem/cache.sv:255-487 | no data and no left-over address ever steers the cache |
| CacheStrays.AbsentWord | dev/hdl/mem/cache.sv:325-333 | during an eviction some word is neither resident nor about to be |
| CacheStrays.Answered | dev/hdl/mem/cache.sv:289-343 | with a ready memory a request in any phase is answered from the flat memory and leaves its line behind |
| CacheStrays.StrayIsRead | dev/hdl/mem/cache.sv:376-380 | after a stray the pending access completes and a read returns the spoilt word |
| CacheStrays.HollowIsRead | dev/hdl/mem/cache.sv:367-375 | after a hollow read the pending access or a read of the line's first word returns the idle bus |
| CacheStrays.FlatExactly | dev/hdl/mem/cache.sv:255-487 | for every schedule of requests and memory timing, none excluded: all runs are flat if and only if no eviction's first cycle is taken over unready and no refill is answered that was not taken over |
| CacheStrays.EvictionNeedsThreeTags | dev/hdl/mem/cache.sv:325-333 | with fewer than three tags nothing is ever evicted |
| CacheStrays.StraysAreReachable | dev/hdl/mem/cache.sv:325-333 | three writes to one set reach a stray from any blank cache |
| CacheStrays.HollowsAreReachable | dev/hdl/mem/cache.sv:285-296 | one access reaches a hollow read from any blank cache |
| CacheStrays.SpoilingScheduleExists | dev/hdl/mem/cache.sv:376-380 | a concrete schedule under which the cache is not a flat memory |
| CacheRtl.EdgeIsStep | dev/hdl/mem/cache.sv:141-487 | one edge of the registers under both combinational blocks is one step of the phase machine |
| CacheRtl.Cache.ClockCopy | dev/hdl/mem/cache.sv:256-344 | the registers of the copy machine after an edge |
| CacheRtl.Cache.ClockRams | dev/hdl/mem/cache.sv:165-206 | tag RAM, data RAM and access buffer after an edge |
| CacheRtl.Cache.Step | dev/hdl/mem/cache.sv:255-487 | one clock edge is one phase step, and the outputs are the ones the phase asks for, stray writes included; ready may be anything |
| CacheRtl.Cache.Tick | dev/hdl/mem/cache.sv:255-487 | the registers beside an external memory make one cycle of the verified system |
| CacheRtl.Cache.Run | dev/hdl/mem/cache.sv:255-487 | over any run, with new undefined wires every cycle, the registers complete the log of the verified system; if every cycle is safe a flat memory could have produced it, each byte being that of the latest write that enabled it |
| Pipeline.ExOutIsCompute | hdl/stages/boa_stage_ex.sv:207-213 | EX drops its stall only when the delayed result of its own instruction is on the output |
| Pipeline.ValueBehindEx | hdl/boa32_cpu.sv:439-460 | the value forwarded from EX is the one sequential execution leaves in that register |
| Pipeline.ValueBehindMem | hdl/boa32_cpu.sv:439-460 | likewise for MEM, with a register not written there taken from the register file |
| Pipeline.IdOperands | hdl/boa32_cpu.sv:496-517 | operands entering EX are the sequential ones, or ID stalls |
| Pipeline.StoreData | hdl/boa32_cpu.sv:502-505 | the data a store takes into MEM is the sequential value of rs2, forwarded from MEM or WB if need be |
| Pipeline.StepRetire | hdl/boa32_cpu.sv:660-700 | when MEM moves on, the register file holds its instruction's result and WB a copy |
| Pipeline.StepIntoMem | hdl/boa32_cpu.sv:678-692 | an instruction enters MEM with its result or address, and a store changes memory once, with its data |
| Pipeline.StepInv | hdl/boa32_cpu.sv:489-542 | every edge, under any stall and with any word in a bubble, keeps each stage in step with sequential execution, unless a load retires with differing CSR data |
| Pipeline.RunIsSequential | hdl/boa32_cpu.sv:439-542 | over any run in which no load retires wrong the pipeline is some number of instructions into the sequential execution |
| Pipeline.WrongShows | hdl/stages/boa_stage_mem.sv:384-389 | a load that retires with CSR data leaves a register file sequential execution does not have |
| Pipeline.RunExactly | hdl/boa32_cpu.sv:439-542 | a run is in step with sequential execution in every cycle if and only if no load retires wrong |
| Pipeline.ResetRunIsSequential | hdl/boa32_cpu.sv:439-542 | from reset, if no load retires wrong, registers and memory equal sequential execution of what retired; once drained, of all that was fetched |
| Pipeline.ResetRunExactly | hdl/boa32_cpu.sv:439-542 | from reset, in step in every cycle if and only if no load retires wrong |
| Pipeline.Advance | hdl/modules/boa_arithmetic.sv:338-350 | a count of what is left, made of stages to pass and unit delays to come, never rises, and falls in every cycle with memory ready, ID not held back and the next instruction offered |
| Pipeline.EverythingRetires | hdl/boa32_cpu.sv:489-542 | after as many such cycles as the count, wherever they lie in the run, every instruction has retired |
| Pipeline.ResetRunFinishes | hdl/boa32_cpu.sv:489-542 | from reset, after (4 + longest unit latency) such cycles an instruction, the whole program has retired, the pipeline is empty and, if no load retired wrong, the state is that of sequential execution |
| PipelineReady.ReadyRunIsSequential | hdl/boa32_cpu.sv:439-542 | with memory always ready every run from reset is sequential, whatever the bubbles carry |
| PipelineReady.UnhinderedIsProductive | hdl/boa32_cpu.sv:489-542 | fetch offering the program without a gap, to a ready memory and an ID that is not held back, makes every cycle count |
| PipelineReady.ProgramRuns | hdl/boa32_cpu.sv:439-542 | such a run has retired the whole program after (4 + longest unit latency) cycles an instruction, with the registers and memory of sequential execution |
| PipelineReady.StallExactly | hdl/boa32_cpu.sv:489-542 | ID is held up by EX, or by a load in EX whose result it needs there, and by nothing else: every other hazard is forwarded |
| PipelineReady.CountsDown | hdl/boa32_cpu.sv:489-542 | in an unhindered run a count of cycles falls by exactly one a cycle, from any state in step |
| PipelineReady.ExactCycles | hdl/boa32_cpu.sv:439-542 | from reset such a run has retired and drained if and only if it is as long as the program's latencies and load-use gaps, one cycle an instruction and three more add up to; it then is the sequential execution |
| PipelineReady.OneACycle | hdl/boa32_cpu.sv:489-542 | without latencies and load-use gaps that is one cycle an instruction and three |
| Pipeline.StrayCsrWord | hdl/stages/boa_stage_mem.sv:371-389 | a run for any load with one wait state and a CSR word in the bubble behind it that is not sequential |
| Pipeline.Core.Clock | hdl/stages/boa_stage_ex.sv:108-134 | the barrier registers, register file and unit delays after one edge |
| Pipeline.Core.RunProgram | hdl/boa32_cpu.sv:439-700 | a whole run of the registers from reset reaches what sequential execution reaches, if no load retires wrong, and the end of the program if it has enough unhindered cycles |
| Fifo.PopRing | dev/hdl/util/fifo.sv:54-57 | advancing the read index removes the oldest element |
| Fifo.PushRing | dev/hdl/util/fifo.sv:58-62 | writing at the write index appends, across the end of the buffer too |
| Fifo.ParamFifo.Clock | dev/hdl/util/fifo.sv:44-64 | one edge acts as a queue of capacity depth - 1: refused writes, reads that make room, and a forced write into a full buffer |
| Fifo.FillsUp | dev/hdl/util/fifo.sv:58-62 | as many elements as there is room for are all kept, in order |
| Fifo.OneTooMany | dev/hdl/util/fifo.sv:15-16 | one more is dropped, or empties the FIFO where full writes are accepted, unless one is read as well |
| Uart.Transmitter.Clock | dev/hdl/mmio/uart.sv:43-73 | the transmitter's registers follow start bit, data bits, stop bit, each one divider period long |
| Uart.ShiftIn | dev/hdl/mmio/uart.sv:132-137 | shifting a sample in keeps the buffer in step with the samples taken |
| Uart.HoldsByte | dev/hdl/mmio/uart.sv:123-131 | after the last data sample the buffer is the eight data bits in order |
| Uart.Receiver.Clock | dev/hdl/mmio/uart.sv:109-144 | the receiver's registers sample half a period after the start bit and then once a period |
| UartLink.EqualDividersAreCompatible | dev/hdl/mmio/uart.sv:119-122 | equal dividers of two or more sample every bit inside its period |
| UartLink.StepFrame | dev/hdl/mmio/uart.sv:43-144 | each sample is the transmitter's current bit, with any divider pair within the bound |
| UartLink.StepConserves | dev/hdl/mmio/uart.sv:194-214 | in one cycle bytes read, then bytes held, are bytes held before, then bytes written |
| UartLink.RunConserves | dev/hdl/mmio/uart.sv:194-214 | over any run nothing is lost, duplicated or reordered, unless a FIFO is overrun |
| UartLink.RoundTrip | dev/hdl/mmio/uart.sv:43-214 | from reset, the bytes read are a prefix of the bytes sent, and all of them once nothing is on its way |
| UartLink.Delivery | dev/hdl/mmio/uart.sv:43-144 | without further writes a computed count falls every cycle, and at zero nothing is in between |
| UartLink.Delivered | dev/hdl/mmio/uart.sv:43-214 | over a run without writes as long as the count, every byte not yet read is in the receive FIFO or read |
| UartTiming.BitTimes | dev/hdl/mmio/uart.sv:43-73 | j * clk_div + i cycles into a frame, i below clk_div, the wire shows bit j of start bit, byte and stop bit |
| UartTiming.FrameEnds | dev/hdl/mmio/uart.sv:51-67 | after 10 * clk_div cycles the wire idles, or starts the next byte at once |
| UartTiming.ZeroIsOne | dev/hdl/mmio/uart.sv:122 | a divider of zero counts as one |
| UartTiming.FrameSeen | dev/hdl/mmio/uart.sv:109-144 | sample k is taken max(1, clk_div / 2) + k * clk_div cycles after the start bit, and the byte is the second to ninth sample if the tenth is a one |
| UartTiming.AgreeingIsCompatible | dev/hdl/mmio/uart.sv:43-144 | two dividers are compatible if and only if sample k falls between k and k + 1 bit times, in cycles, for all ten samples |
| UartTiming.AgreeingRoundTrip | dev/hdl/mmio/uart.sv:43-214 | the round trip under that condition |
| UartLink.Cycle | dev/hdl/mmio/uart.sv:194-214 | the clocked FIFOs and serial units, wired together, make one step of the link |
| Divider.ChainDivides | hdl/modules/boa_arithmetic.sv:123-135 | after each subtraction stage quotient so far times divisor plus remainder is the dividend, and the remainder is in range |
| Divider.ChainByZero | hdl/modules/boa_arithmetic.sv:123-135 | dividing by zero sets every quotient bit passed and leaves the dividend |
| Divider.ChainResult | hdl/modules/boa_arithmetic.sv:204-216 | the whole chain, of any width, gives quotient and remainder |
| Divider.UDivider.Clock | hdl/modules/boa_arithmetic.sv:197-229 | with registers at any stages, the output of a cycle answers the operands of exactly that many cycles before |
| Placement.ComputeHasReg | hdl/modules/boa_arithmetic.sv:166-195 | the loop decides membership of a stage in the running-tally placement |
| Placement.TallyBounds | hdl/modules/boa_arithmetic.sv:182-193 | the tally stays in [-1/2, 1/2) while registers are left to place |
| Placement.ChosenTotal | hdl/modules/boa_arithmetic.sv:166-195 | the stages chosen hold exactly the requested registers if and only if the plan fits, which it does up to half the width, and never more except for "all" with latency 1 |
| Placement.MisfitsExist | hdl/modules/boa_arithmetic.sv:166-195 | documented plans that put down too few or too many |
| SignedDivider.IsaDivRemUnique | hdl/modules/boa_arithmetic.sv:295-299 | section 7.2 of the unprivileged ISA leaves no choice of quotient and remainder |
| SignedDivider.CorrectedIsIsa | hdl/modules/boa_arithmetic.sv:261-266 | sign correction around an unsigned divide meets the ISA, divide by zero and overflow included |
| SignedDivider.SimpleDivide | hdl/modules/boa_arithmetic.sv:46-67 | the zero-latency divider meets the ISA for all operands |
| SignedDivider.AnswerIsIsa | hdl/modules/boa_arithmetic.sv:295-299 | results corrected by the flags of their own request meet the ISA |
| SignedDivider.PipelinedDivider.constructor | hdl/modules/boa_arithmetic.sv:271-278 | a divider for any documented plan, with as many operand registers as the placement rule puts down |
| SignedDivider.PipelinedDivider.Clock | hdl/modules/boa_arithmetic.sv:261-299 | the outputs combine results and flags of the cycles their registers reach back to; where those agree they meet the ISA for the request of `latency` cycles before, every cycle |
| SignedDivider.PipelinedDivider.DivideInEx | hdl/stages/boa_stage_ex.sv:193-213 | with the operands held while EX stalls the result meets the ISA for every plan that puts down no more registers than its latency |
| SignedDivider.ShortStall | hdl/stages/boa_stage_ex.sv:193-213 | "all" with latency 1 takes the quotient of the operands before |
| Arithmetic.Comparator | hdl/stages/boa_stage_ex.sv:216-255 | carry-out and zero of the one adder decide equality and signed or unsigned less-than |
| Arithmetic.BranchesDecide | hdl/stages/boa_stage_ex.sv:254-259 | all six branches go where their condition says |
| Arithmetic.SumsAndComparisons | hdl/stages/boa_stage_ex.sv:216-279 | ADD, SUB, ADDI and the set-less-thans from the same adder |
| Arithmetic.CarryIsGreater | hdl/stages/boa_stage_mem.sv:525-541 | the AMO adder's carry means strictly greater |
| Arithmetic.AtomicExtremes | hdl/stages/boa_stage_mem.sv:544-555 | AMOMIN, AMOMAX and their unsigned forms write back an extreme of the two operands |
| Arithmetic.AtomicAdd | hdl/stages/boa_stage_mem.sv:525-546 | AMOADD writes back the wrapped sum |
| Arithmetic.ProductIsExact | hdl/modules/boa_arithmetic.sv:23-32 | extending to 64 bits and truncating is the true product modulo 2^64 |
| Arithmetic.Products | hdl/stages/boa_stage_ex.sv:162-166 | MUL, MULH, MULHSU and MULHU for all operands |
| SoftDivide.Normalise | prog/common/asm/int64.S:112-139 | the normalisation loop ends with the divisor's top bit set and its shift counted |
| SoftDivide.SetDigit | prog/common/asm/int64.S:155-166 | setting quotient bit a6 of the register pair adds its weight |
| SoftDivide.DivideLoop | prog/common/asm/int64.S:142-178 | one pass per bit position; dividend = quotient * divisor + remainder with the remainder below twice the shifted divisor, across halves and borrows |
| SoftDivide.Routine.Divide | prog/common/asm/int64.S:73-193 | quotient and remainder for every 64-bit dividend and non-zero divisor; the cached result is never used |
| Framing.SendPacket | prog/bootloader/src/main.c:88-105 | the printed bytes are the frame: start, header, payload, checksum |
| Framing.StreamRoundTrip | tools/programmer/src/main.c:66-154 | after junk, any printed packets are delivered in order, once, intact; over-long ones are refused and consumed |
| Framing.CorruptionIsRejected | prog/bootloader/src/main.c:275-280 | one changed byte outside start and length is always rejected, and nothing else is delivered |
| Receiver.Parser.OnHeader | prog/bootloader/src/main.c:246-262 | a header byte moves the parser to the state the frame so far calls for |
| Receiver.Parser.OnData | prog/bootloader/src/main.c:269-274 | a payload byte goes to the buffer, or straight to memory for P_WDATA |
| Receiver.Parser.OnSkipped | prog/bootloader/src/main.c:263-268 | the payload of an over-long packet is counted and dropped |
| Receiver.Parser.OnChecksum | prog/bootloader/src/main.c:275-294 | the last byte gives the frame's verdict and returns to the idle state |
| Receiver.Parser.HandleRx | prog/bootloader/src/main.c:238-295 | one received byte extends the frame, or ends it with its verdict; memory changes only by P_WDATA |
| Upload.Bootloader.HandleByte | prog/bootloader/src/main.c:238-295 | the device's reply to a byte, and its memory and write address afterwards |
| Upload.Bootloader.Receive | prog/bootloader/src/main.c:178-204 | a whole frame changes memory and write address, and is answered, as the protocol says |
| Upload.AwaitData | prog/bootloader/src/main.c:252-254 | however often a data block is garbled and sent again, only its own range differs, and once acknowledged it holds the block |
| Upload.AwaitCommand | tools/programmer/src/main.c:186-219 | retried write commands leave memory alone unless one passes for data, and set the address once acknowledged |
| Upload.BlocksTile | tools/programmer/src/main.c:296-302 | the blocks cut from an image of any length tile it exactly |
| Upload.UploadIsCorrect | tools/programmer/src/main.c:268-302 | with every block acknowledged and no stray command, the range holds the image and the rest is unchanged |
| UploadOutcome.BlockSucceeds | tools/programmer/src/main.c:268-293 | a block is acknowledged if and only if its command and its data each have one of four tries whose frame and answer both arrive as sent |
| UploadOutcome.UploadSucceedsExactly | tools/programmer/src/main.c:296-302 | every block is acknowledged if and only if all blocks get through so |
| UploadOutcome.ReachedUpload | tools/programmer/src/main.c:268-302 | if they do, and no command passes for data, the whole image is in memory |
| UploadOutcome.EveryReachedBlock | tools/programmer/src/main.c:296-302 | a block that gets through is in memory at the end whatever happened to the others, and nothing outside the image changes |
| UploadOutcome.FrameBytes | prog/bootloader/src/main.c:88-105 | a frame is a two, type, length, payload and the sum of all these bytes |
| UploadOutcome.CommandBytes | tools/programmer/src/main.c:268-286 | types and payloads of the two packets of a block |
| UploadOutcome.DeviceAnswers | prog/bootloader/src/main.c:275-294 | status, cause and write address after each frame, the pong to a ping included |
| UploadOutcome.DeviceCapacity | prog/bootloader/src/main.c:278-279 | the device takes up to 16 bytes, and data of any length |
| UploadOutcome.HostCapacity | tools/programmer/CMakeLists.txt:16 | the programmer takes packets of up to 64 KiB |
| Upload.OneBitStrays | prog/bootloader/src/main.c:252-254 | one flipped bit makes a write command a rejected data packet |
| Upload.StrayCorrupts | prog/bootloader/src/main.c:252-254 | such a frame yields an acknowledged upload with wrong memory |
| Upload.UploadLawExactly | tools/programmer/src/main.c:268-302 | the upload law holds over a line if and only if the line never turns a write command into data |
| Upload.Programmer.Transmit | tools/programmer/src/main.c:200-205 | one transmission and its answer, byte by byte through both parsers |
| Upload.Programmer.AwaitPacket | tools/programmer/src/main.c:186-219 | the retry loop gives up after RETRY_COUNT + 1 tries and otherwise returns the settling answer |
| Upload.Programmer.WriteMemBlock | tools/programmer/src/main.c:268-293 | a block is a command and a data exchange, both acknowledged |
| Upload.Programmer.WriteImage | tools/programmer/src/main.c:296-302 | the block loop; device memory holds the image if all blocks were acknowledged and none strayed |
| Pmp.Check | hdl/modules/boa_pmp.sv:193-227 | the ORed active entries give the verdict of the first entry that applies, or M-mode's default |
| PmpRegions.Verdict | hdl/modules/boa_pmp.sv:193-227 | the first entry that covers an address decides, in M-mode the first locked one; without one, M-mode may do all and a lower mode nothing |
| PmpRegions.TorRegion | hdl/modules/boa_pmp.sv:266-271 | a TOR entry covers exactly the bytes from the lower bound to below the upper one, entry 0 from address 0 |
| PmpRegions.TorWritten | hdl/modules/boa_pmp.sv:145-149 | the same for bounds written through the CSRs |
| PmpRegions.TorAccess | hdl/modules/boa_pmp.sv:193-227 | with one TOR entry a lower mode has its permissions inside, and none outside |
| PmpRegions.FourByteRegion | hdl/modules/boa_pmp.sv:270 | an NA4 entry covers exactly four bytes |
| PmpRegions.AddressTaken | hdl/modules/boa_pmp.sv:145-149 | an address write is taken unless its entry or the TOR entry after it is locked, and changes nothing else |
| PmpRegions.ConfigTaken | hdl/modules/boa_pmp.sv:127-143 | a lock always sticks; the rest of a configuration is taken under the same condition, NA4 turning into NAPOT with coarser granules |
| Pmp.PmpUnit.WriteCfg | hdl/modules/boa_pmp.sv:127-143 | a configuration write sets four locks and, where enabled before the edge, four configurations |
| Pmp.PmpUnit.Write | hdl/modules/boa_pmp.sv:118-152 | one CSR write turns the entries into what the lock rules allow |
| Pmp.LocksArePermanent | hdl/modules/boa_pmp.sv:74-152 | over every sequence of writes a locked entry keeps lock, configuration and address, and a locked TOR entry its lower bound |
| Pmp.LockedSetIsFixed | hdl/modules/boa_pmp.sv:266-273 | so the addresses it covers never change |
| Pmp.LockedVerdictIsFinal | hdl/modules/boa_pmp.sv:193-227 | an M-mode verdict given by entry j never changes if entries 0 to j are locked |
| Napot.LessIsOneLess | prog/common/include/pmp.h:56 | the borrow chain is subtraction of one on a 32-bit word |
| Napot.EncodedDigits | prog/common/include/pmp.h:49-56 | the encoded word is the base above a zero above ones |
| Napot.ChainIsTrailingOnes | hdl/modules/boa_pmp.sv:252-263 | the mask chain is the trailing ones and the stop bit the first zero, at any width |
| Napot.NapotIsRange | hdl/modules/boa_pmp.sv:252-271 | the match is true exactly on [base, base + 2^n), for every grain and address width |
| Napot.WrittenRegion | hdl/modules/boa_pmp.sv:145-149 | written through the CSR, a NAPOT entry covers exactly its region |
| Demux.WinnerIsFirstAfter | hdl/modules/boa_memory.sv:380-399 | the chain that runs twice around the ports picks the first requester behind the last owner |
| Demux.OwnerIsUnique | hdl/modules/boa_memory.sv:474 | custody is never split and lapses only when nobody requests from idle |
| Demux.WhoAsks | hdl/modules/boa_memory.sv:475-478 | a port asks by its read enable or any of its write enables |
| Demux.Drive | hdl/modules/boa_memory.sv:495-520 | ORing the masked requests gives the owner's request and nobody else's |
| Demux.MemDemux.Clock | hdl/modules/boa_memory.sv:474-526 | a cycle passes exactly one owner's request, or none, and only the owner sees ready |
| Demux.OneOwner | hdl/modules/boa_memory.sv:488-494 | over any history there is exactly one owner |
| Demux.RequestingOwnerKeepsCustody | hdl/modules/boa_memory.sv:474 | an owner that keeps requesting keeps custody |
| Demux.RoundRobinFromIdle | hdl/modules/boa_memory.sv:372-398 | after a quiet cycle the owner, if it asks, or else the next requester in turn gets the port |
| Demux.QuietKeepsOwner | hdl/modules/boa_memory.sv:488-494 | quiet cycles leave custody with the port last served |
| Demux.TurnAfterQuiet | hdl/modules/boa_memory.sv:372-398 | after them the port last served keeps the port if it asks; else the lowest-numbered requester above it is next, or the lowest of all |
| Demux.BusyPortsPinTheOwner | hdl/modules/boa_memory.sv:372-397 | while somebody keeps asking custody does not move |
| Demux.TakenOverWhileUnready | hdl/modules/boa_memory.sv:474-523 | a port that was not the last owner and asks from idle is passed on in the same cycle while it sees the memory unready |
| Sram.Controller.Clock | dev/hdl/mem/extmem_sram.sv:51-121 | the controller's registers and the SRAM after one edge |
| Sram.LanesStore | hdl/stages/boa_stage_mem.sv:667-705 | four byte cycles through the lanes are the little-endian store |
| Sram.LanesLoad | hdl/stages/boa_stage_mem.sv:717-743 | the lane picked out and extended is the little-endian number, signed or unsigned |
| Sram.Begin | dev/hdl/mem/extmem_sram.sv:85-103 | an idle controller takes an access over and starts at byte 0 |
| Sram.Continue | dev/hdl/mem/extmem_sram.sv:74-84 | each cycle handles one byte of the held access |
| Sram.Finish | dev/hdl/mem/extmem_sram.sv:63-73 | the fourth cycle completes the access and takes the next one over at once |
| Sram.StepInv | dev/hdl/mem/extmem_sram.sv:51-121 | every cycle keeps SRAM, buffers and log in step with the byte array |
| Sram.RunIsByteArray | dev/hdl/mem/extmem_sram.sv:51-121 | over any run each access accepted at cycle t is answered at t + 4, loads with the byte array's number |
| SramBytes.StoredBytes | hdl/stages/boa_stage_mem.sv:667-705 | a store puts the bytes of its operand at its address, lowest first, and changes no other byte |
| SramBytes.LoadedNumber | hdl/stages/boa_stage_mem.sv:717-743 | what each load leaves in the register, from the bytes it covers |
| SramBytes.LoadsWhatWasStored | hdl/stages/boa_stage_mem.sv:667-743 | a store is loaded back, also after any access elsewhere |
| SramBytes.AcceptsExactly | dev/hdl/mem/extmem_sram.sv:63-103 | over any run an offered access is taken over if and only if none was in the last three cycles |
| SramBytes.EveryFourthCycle | dev/hdl/mem/extmem_sram.sv:63-73 | a steady stream of accesses is served one in four cycles, without a gap |
| Rvc.DecodeI | hdl/stages/boa_stage_ex.sv:149-151 | the decoders recover register numbers, function and sign-extended immediate from what format I places |
| Rvc.DecodeR | hdl/stages/boa_stage_id.sv:330-350 | likewise for stores, register operations and branches |
| Rvc.DecodeU | hdl/stages/boa_stage_id.sv:306-318 | likewise for LUI and JAL |
| Rvc.Quadrant0 | hdl/modules/boa_compressed.sv:48-102 | C.ADDI4SPN, C.LW and C.SW have their effect |
| Rvc.Quadrant1 | hdl/modules/boa_compressed.sv:103-305 | immediates, C.JAL, C.LUI, C.ADDI16SP, register arithmetic, C.J and branches have their effect |
| Rvc.Quadrant2 | hdl/modules/boa_compressed.sv:306-445 | C.SLLI, stack accesses, C.JR, C.MV, C.EBREAK, C.JALR and C.ADD have their effect |
| Rvc.ExpansionKeepsMeaning | hdl/modules/boa_compressed.sv:47-447 | every non-reserved RV32C instruction, at every address and register state, does what chapter 16 says, with link address pc + 2 |
| Rvc.RefusedExactly | hdl/modules/boa_compressed.sv:47-447 | every reserved encoding is refused except C.LUI and C.ADDI16SP with a zero immediate |
| RvcEncoding.ExpansionIsEncoded | hdl/modules/boa_compressed.sv:47-447 | as a number, every expansion is the one the base formats give for that instruction: opcode, functions, register numbers and immediate |
| RvcEncoding.ShiftsScale | hdl/modules/boa_arithmetic.sv:305-319 | shifts multiply modulo 2^32, divide, or divide the signed number rounding down |
| RvcEncoding.GatesAreBitwise | hdl/stages/boa_stage_ex.sv:276-284 | AND, OR and XOR work on each of the 32 digits |
| RvcEncoding.Comparisons | hdl/stages/boa_stage_ex.sv:216-259 | set-less-than and the six branches compare signed or unsigned numbers as they should |
| Image.Pack | tools/bin2mem.py:23-28 | word i is the little-endian packing of bytes 4i to 4i + 3 |
| Image.Write | tools/bin2mem.py:31-32 | the text is the words in lower-case hexadecimal with commas between |
| Image.WordCount | tools/bin2mem.py:25-26 | there are as many words as the bytes need, and no more |
| Image.BlockRam.Load | sim/dev/hdl/raw_block_ram.sv:43-77 | the parse loop leaves the storage the loader function gives, or stops at a bad character |
| Image.HexReads | sim/dev/hdl/raw_block_ram.sv:57-65 | reading a hexadecimal number back gives the number |
| Image.Digits | sim/dev/hdl/raw_block_ram.sv:57-65 | digits are written in lower case and read in either case |
| Image.NoLeadingZero | tools/bin2mem.py:31-32 | a number other than zero has no leading zeroes |
| Image.OtherCharacters | sim/dev/hdl/raw_block_ram.sv:66-73 | space anywhere changes nothing, and any character of no meaning stops the simulation |
| Image.ImageRoundTrip | sim/dev/hdl/raw_block_ram.sv:43-77 | loading what was written stores the packed words, and zeroes after them, for every byte string |
| Mappings.Mapping.GenRuns | tools/mapping.py:61-71 | the runs are maximal, in descending order, and expand to exactly the map |
| Mappings.MaximalBelow | tools/mapping.py:61-71 | no run could start lower either |
| Mappings.InvertLinks | tools/mapping.py:84-88 | every destination leads back to one of its sources |
| Mappings.InvertTwice | tools/mapping.py:84-88 | inverting twice is the identity if and only if the mapping is injective |
| Mappings.MoveBits | tools/mapping.py:90-102 | the result has exactly the bits the mapping moves there, for any integer, negative too |
| Mappings.Mapping.ApplyMapping | tools/mapping.py:103-109 | the composite keeps one source for every destination reached through both; an empty one is an error |
| Mappings.InjectiveMappingsCompose | tools/mapping.py:96-109 | for injective mappings applying the composite is applying both |
| Mappings.CompositionLawExactly | tools/mapping.py:96-109 | the law holds for all integers if and only if no two bits meet |

## Left out

- Cache flush, precise invalidation, the invalidation after reset, stalls and `writeable` = 0; more than two ways.
- Branches, traps, interrupts, CSR and atomic instructions as part of the program in the pipeline, and the fetch stage.
- The bus registers, interrupts and run-time divider changes of the UART.
- Fairness of the arbiter beyond what is stated above, the static arbiter, the crossbar and the address multiplexer.
- The handlers of P_WHO, P_SPEED, P_READ, P_JUMP and P_CALL; packets of other types leave the answer open.
- Uploads in which a length field is garbled: the receiver then waits for a frame of another length.
- PMP priority across privilege levels as the privileged specification has it; reset, which leaves the lock bits alone; CSR reads.
- Signed 64-bit division; a zero divisor with a non-zero high dividend word.
- RV64 and floating-point compressed instructions; in Rvc, what a load or store does in memory is its address and data only.
- Divider widths other than 32 in the signed wrapper; shifts, logic and SYSTEM instructions in Arithmetic (Rvc has them).
- The AMO sequencing of the MEM stage and AMOSWAP over the SRAM, whose data lines float while it writes.
- Parsing of mapping expressions and printing of mappings; a dictionary's insertion order (any order is allowed).
- Image words of other widths than 32 bits, and reading the image file itself.
- GPIO, PWM, power management, the clock-domain crossing of the timer, board tops, ELF loading and terminal handling.
- Register files and RAMs are fields of sequence or map type, assigned as a whole, except where arrays are used; aliasing between them is not modelled.
