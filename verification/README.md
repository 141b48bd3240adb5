# DCPU-16 emulator core and profiler blocks, in Dafny

This project models the instruction-execution core of a DCPU-16 emulator,
written in Go (`cpu/cpu.go`), together with the profiler's block aggregation
(`prof/block.go`). It proves properties of both.

The emulator is built on the DCPU-16 1.7 specification: registers A, B, C,
X, Y, Z, I and J, plus SP, PC, EX and IA; 64K words of memory; basic
opcodes; special opcodes; and an interrupt queue. It departs from that
specification in a few places (its stack discipline among them, see "Left
out"), and the model follows the Go code there. Operand `a` is the write target and
`b` is the source.

The model is functional:

- `Storage` is an immutable record of registers and memory.
- A Go `*Word` operand becomes a `Location` (`Reg`, `Mem` or `Lit`), which
  `Read` and `Write` interpret.
- `Step` returns the new CPU together with an `Outcome`. The outcome takes the
  place of the host hooks and of the step's error value:
  - `Continue`
  - `BranchSkip(pc, cost)`
  - `DeviceHandler(i)`
  - `Exit`
  - `Panic(pc, msg)`
  - `Overload`
  - `Hang`

Go integer semantics are written out explicitly:

- 16-, 32- and 64-bit wrap-around.
- Shifts by the operand width or more yield 0, except that an arithmetic
  right shift of a negative value by the width or more yields -1.
- Integer division and remainder truncate toward zero.
- Where the emulator reads `*va` or `*vb` after the target write (DIV, SHR,
  ASR) or, for JSR, after the push, the model re-reads the location too. This keeps aliasing between
  the two operands exactly as in the Go code.

Modules, one per file:

- `Words` (`words.dfy`): word types, wrap-around, shifts, Go division.
- `Instructions` (`instructions.dfy`): opcode constants, instruction decoding,
  and `Sizeof`.
- `Operands` (`operands.dfy`): storage, locations, and `decodeOperand`.
- `Processor` (`processor.dfy`): the CPU record, devices, interrupts, and
  reset.
- `Execution` (`execution.dfy`): the skip rule, the step, and the run loop.
- `ExecutionProofs` (`execution_proofs.dfy`): properties of single
  instructions and of steps.
- `Profiler` (`profiler.dfy`): block cost and the two sort orders.

## Model

| member | source | states |
|---|---|---|
| Instructions.Sizeof | cpu/cpu.go:552-564 | the length is 1 to 3 words: one, plus one for `a` (only when the opcode is not EXT) and one for `b` when the code is 0x10-0x17, 0x1e or 0x1f |
| Instructions.Decode | cpu/cpu.go:134-140 | the decoded fields are in range and re-encode to the instruction word |
| Instructions.DecodeEncode | cpu/cpu.go:134-140 | decoding an encoded well-formed instruction gives it back |
| Instructions.EncodeInjective | cpu/cpu.go:134-140 | the opcode, `a` and `b` fields of an instruction word are determined by the word: two in-range field triples with the same encoding are equal |
| Operands.Write | cpu/cpu.go:438-441 | a store through a literal changes nothing; any other location then reads back the stored value, and IA and (for registers) memory are unchanged |
| Operands.ReadOverWrite | cpu/cpu.go:436-549 | reading after a write sees the written value exactly at the written location, and the old value everywhere else |
| Operands.DecodeOperand | cpu/cpu.go:436-549 | memory is untouched and only PC and SP move; SP moves only for code 0x18; codes 0x20-0x3f are the literals w - 0x21 mod 2^16 (and only they are literals); PUSH yields the cell at the old SP and lowers SP, while POP raises SP and yields the cell at the new SP; PEEK is the cell at SP, PICK the cell at SP plus the next word, and 0x1f the next-word cell itself |
| Operands.DecodeAdvancesByExtraWords | cpu/cpu.go:484-545 | for every operand code except 0x1a, decoding advances PC by exactly the extra words Sizeof counts for it |
| Operands.PickConsumesUncountedWord | cpu/cpu.go:524-526 | PICK (0x1a) advances PC by one word, although Sizeof counts none for it |
| Operands.PeekAfterPushMissesIt | cpu/cpu.go:509-521 | PUSH stores at the old SP and lowers SP, so a PEEK right after it resolves to the cell below the pushed word |
| Operands.LiteralTargetIsInert | cpu/cpu.go:438-441 | writing through a literal target leaves every register and all of memory unchanged |
| Processor.CountDevices | cpu/cpu.go:56 | the number of attached devices, never more than 0xffff on a valid CPU |
| Processor.RegisterDevice | cpu/cpu.go:61-65 | the device is appended when fewer than 0xffff are attached, and otherwise ignored; existing devices, storage and queue are kept |
| Processor.ClearDevices | cpu/cpu.go:68 | no devices remain, and everything else is kept |
| Processor.Reset | cpu/cpu.go:71-75 | registers, IA and memory are zero, the queue is empty, queueing is off, and the devices stay |
| Processor.TriggerInterrupt | cpu/cpu.go:98-105 | PC is pushed, then A; PC becomes IA and A becomes the message; queueing turns on; every other cell and register is unchanged |
| Processor.ReturnFromInterrupt | cpu/cpu.go:380-385 | queueing turns off; A is popped and then PC; SP rises by 2; memory and the other registers are unchanged |
| Processor.Interrupt | cpu/cpu.go:79-92 | it fails exactly when queueing is on and the queue is full; with queueing on, the message is appended; with queueing off, it is dropped when IA is 0 and triggered otherwise |
| Processor.ServiceQueue | cpu/cpu.go:200-202 | with queueing off and a non-empty queue, the oldest message is removed and triggered; otherwise nothing changes |
| Processor.ReturnUndoesTrigger | cpu/cpu.go:98-105 | RFI right after an interrupt was triggered restores every register (PC, A and SP included), and queueing is off again |
| Processor.QueueingAppends | cpu/cpu.go:79-92 | with queueing on, raising a run of interrupts appends them to the queue in order, and succeeds exactly when the run is empty or all of it fits in the queue |
| Processor.QueueIsFifo | cpu/cpu.go:79-92 | for any queue and any run of messages that fits, once queueing is off the oldest pending message is serviced first and the rest stay queued in order |
| Execution.NextPc | cpu/cpu.go:143-148 | `skip` advances PC by one to three words, wrapping at 64K |
| Execution.SkipFrom | cpu/cpu.go:165-174 | the loop stops right after the first non-branch instruction: every instruction before it is a branch, and the resulting PC is that many instructions further on; if it does not stop within the fuel, every instruction it visited is a branch |
| Execution.SkipBranch | cpu/cpu.go:165-186 | only PC changes, and the skip hands on PC after operand decoding minus the instruction's Sizeof (the failed branch's own address unless it has a PICK operand) |
| Execution.Prepare | cpu/cpu.go:134-140 | the instruction at PC is decoded, its size is its Sizeof, memory is untouched, and only PC and SP move |
| Execution.ExecuteBasic | cpu/cpu.go:224-362 | a basic instruction leaves the devices, the queue, the queueing flag and IA alone, and ends in Continue or in the skip rule |
| Execution.RereadDivisorNonZero | cpu/cpu.go:254-255 | the divisor re-read after DIV stores its quotient is still non-zero, even when both operands are the same location |
| Execution.ExecuteSpecial | cpu/cpu.go:364-425 | devices are kept; only INT changes the queue, by appending the operand; Overload happens exactly for INT on a full queue while queueing |
| Execution.Step | cpu/cpu.go:189-429 | devices are kept and the queue and device bounds are preserved; at most one queued message is taken off (only when queueing is off), and at most one is added |
| Execution.RunFor | cpu/cpu.go:112-130 | a run fails only on PANIC or queue overload; devices and the bounds are preserved across steps and device handlers |
| Execution.Run | cpu/cpu.go:112-130 | starting at the entry point, a run fails only on PANIC or queue overload |
| ExecutionProofs.SetCopiesSource | cpu/cpu.go:225-226 | SET stores the source at the target and leaves EX alone unless EX is the target |
| ExecutionProofs.BitwiseStores | cpu/cpu.go:281-288 | AND, BOR and XOR store the bitwise and, or and exclusive or of the two operands at the target |
| ExecutionProofs.AddCarries | cpu/cpu.go:228-231 | ADD: target + 0x10000 * EX is the exact sum, and EX is 0 or 1 |
| ExecutionProofs.SubBorrows | cpu/cpu.go:233-236 | SUB: the target is the difference mod 2^16; EX is 0xffff exactly when b > a, and 0 exactly when b <= a |
| ExecutionProofs.MulSplitsProduct | cpu/cpu.go:238-241 | MUL: target + 0x10000 * EX is the exact product |
| ExecutionProofs.ShlSplitsShift | cpu/cpu.go:299-302 | SHL: below 32, target + 0x10000 * EX is a * 2^b mod 2^32, and below 16 it is a * 2^b exactly; from 32 on, both are 0 |
| ExecutionProofs.AdxCarries | cpu/cpu.go:344-347 | ADX: target + 0x10000 * EX is the exact sum including the old EX |
| ExecutionProofs.SbxBorrows | cpu/cpu.go:349-352 | SBX: target + 0x10000 * EX is a - b + EX, plus 2^32 when that is negative |
| ExecutionProofs.ShrStoresQuotient | cpu/cpu.go:290-292 | SHR stores a / 2^b rounded down for a shift below 16, and 0 from 16 on |
| ExecutionProofs.DivByZero | cpu/cpu.go:248-252 | DIV by zero stores 0 in the target and in EX |
| ExecutionProofs.DviByZero | cpu/cpu.go:257-261 | DVI by zero stores 0 in the target and in EX |
| ExecutionProofs.ModByZero | cpu/cpu.go:267-279 | MOD and MDI by zero store 0 in the target and leave EX alone |
| ExecutionProofs.DivQuotient | cpu/cpu.go:248-255 | DIV by a non-zero divisor stores the largest q with q * b <= a |
| ExecutionProofs.ConditionalRunsOrSkips | cpu/cpu.go:304-342 | an IF* whose condition holds changes nothing, and one whose condition fails runs the skip rule |
| Execution.ConditionHolds | cpu/cpu.go:304-342 | the signed tests IFA and IFU agree with IFG and IFL on words below 0x8000, and order a word with the sign bit set below one without it |
| ExecutionProofs.ConditionPairs | cpu/cpu.go:304-342 | IFB and IFC are complementary, as are IFE and IFN; IFG and IFL never both hold, nor do IFA and IFU, and for unequal operands one of each pair holds |
| ExecutionProofs.SkipRuleSkips | cpu/cpu.go:165-186 | a completed skip passes n instructions, of which the first n-1 are branches and the last is not; it reports n mod 2^16 as the cost, which is at least 1 when n < 2^16 |
| ExecutionProofs.SkipFromFails | cpu/cpu.go:165-174 | the skip loop runs out of its 64K fuel if and only if every instruction it visits is a branch |
| ExecutionProofs.SkipFromFailsWithin | cpu/cpu.go:165-174 | for any fuel, the skip loop runs out of fuel if and only if every instruction it visits within that fuel is a branch |
| ExecutionProofs.SkipRuleHangs | cpu/cpu.go:165-174 | the skip rule hangs if and only if the 64K instructions it visits are all branches |
| ExecutionProofs.JsrPushesReturnAddress | cpu/cpu.go:366-369 | JSR stores the return address at the old SP, lowers SP by 1 and jumps to the operand as read after the push: to the operand's old value, unless the operand is the pushed cell (POP, PEEK, PICK 0), when it jumps to the return address, or SP, when it jumps to the lowered SP |
| ExecutionProofs.IasThenIag | cpu/cpu.go:374-378 | IAS followed by IAG reads back the interrupt address that was set |
| ExecutionProofs.IaqSetsQueueing | cpu/cpu.go:387-388 | IAQ turns queueing on exactly for a non-zero operand and changes nothing else |
| ExecutionProofs.StiStdCopyAndMove | cpu/cpu.go:354-362 | for a target other than I and J, STI and STD copy the source to the target; STI then raises the old I and J by 1, and STD lowers them by 1 |
| ExecutionProofs.HwqUnknownDevice | cpu/cpu.go:393-396 | HWQ for an index past the devices zeroes A, B, C, X and Y and changes nothing else |
| ExecutionProofs.HwqKnownDevice | cpu/cpu.go:399-409 | HWQ for an attached device puts its id in A (low) and B (high), its revision in C, and its manufacturer in X (low) and Y (high) |
| ExecutionProofs.HwnCountsDevices | cpu/cpu.go:390-391 | HWN stores the number of attached devices |
| ExecutionProofs.PrepareAdvancesBySizeof | cpu/cpu.go:204-210 | without a PICK operand, fetching and resolving an instruction advances PC by exactly its Sizeof |
| ExecutionProofs.SkipLandsWhereFetchEnds | cpu/cpu.go:143-148 | without a PICK operand, `skip` leaves PC exactly where fetching and resolving the instruction leaves it |
| ExecutionProofs.PickOutrunsSizeof | cpu/cpu.go:524-526 | SET A, PICK n has Sizeof 1 but advances PC by 2 |
| ExecutionProofs.HandlerOfOneRfiReturns | cpu/cpu.go:380-385 | stepping into a handler made of a single RFI returns to the interrupted program with every register restored and queueing off |
| ExecutionProofs.StepServicesOldestFirst | cpu/cpu.go:200-202 | with queueing off, a step enters the handler for the oldest queued message (A = message, PC = IA) and removes it from the queue |
| ExecutionProofs.StepKeepsQueueWhileQueueing | cpu/cpu.go:200-202 | with queueing on, a step takes nothing off the queue |
| ExecutionProofs.ExitIsSuccess | cpu/cpu.go:119-124 | EXIT ends the run as a success |
| ExecutionProofs.PanicReportsAddress | cpu/cpu.go:416-421 | a PANIC reports PC after operand decoding minus its Sizeof: its own address without a PICK operand, and one word past it with one |
| ExecutionProofs.PanicIsError | cpu/cpu.go:119-124 | a step that ends in PANIC ends the run with an error carrying that step's outcome |
| Words.GoQuot | cpu/cpu.go:263-265 | the truncated quotient leaves a remainder smaller than the divisor, with the sign of the dividend |
| Words.GoRem | cpu/cpu.go:267-279 | the remainder is smaller than the divisor, has the sign of the dividend, and recomposes the dividend with the quotient |
| Words.DivWord | cpu/cpu.go:254 | the unsigned quotient q satisfies q * y <= x < (q + 1) * y |
| Words.HalveTimesDivides | cpu/cpu.go:290-292 | the unsigned right shift by n is floor division by 2^n |
| Profiler.Cost | prof/block.go:22-29 | count and cost are the exact sums of the instructions' counts and cumulative costs, wrapped to 64 bits |
| Profiler.CountFromIsWrappedSum | prof/block.go:23-26 | the loop that wraps at every addition ends with the wrapped exact sum of the counts |
| Profiler.CostFromIsWrappedSum | prof/block.go:23-26 | the same holds for the cumulative costs |
| Profiler.EmptyBlockCostsNothing | prof/block.go:22-29 | a block with no instructions costs (0, 0) |
| Profiler.CostOfConcatenation | prof/block.go:22-29 | the totals of two concatenated runs are the wrapping sum of their totals |
| Profiler.LessByCount | prof/block.go:37-41 | Less(i, j) holds exactly when count(i) >= count(j) |
| Profiler.LessByCost | prof/block.go:49-53 | Less(i, j) holds exactly when cost(i) >= cost(j) |
| Profiler.OrderingsArePreorders | prof/block.go:37-53 | both orders are reflexive (so not strict), total and transitive |
| Profiler.Swap | prof/block.go:42 | entries i and j are exchanged, every other entry and the length are unchanged, and the list is a permutation of the original |
| Profiler.SwapIsInvolution | prof/block.go:54 | swapping twice restores the list |
| Profiler.SwapExchangesComparison | prof/block.go:42 | after a swap, comparing positions i and j compares the blocks that were at j and i |

## Left out

- Part of package `cpu` is not part of this model: `Decode`, `Signed`,
  `Storage`, `Storage.Clear`, `readString`, `MaxIntQueue` and the opcode
  constants. They are given concrete definitions:
  - the instruction layout of DCPU-16 1.7, with the opcode in bits 0-4, `a`
    in bits 5-9 and `b` in bits 10-15;
  - the opcode values of DCPU-16 1.7;
  - PANIC = 0x13 and EXIT = 0x14 for the emulator's two extension opcodes;
  - a queue capacity of 256;
  - `Clear` zeroes every register and all of memory;
  - `Signed` is the two's-complement int16 value, widened to int32.
- Signed opcodes (MLI, DVI, MOD, MDI with a non-zero divisor, ASR, IFA,
  IFU): these are modelled under the `Signed` assumption above. No property
  is proved about the results MLI, DVI, ASR, or MOD and MDI with a non-zero
  divisor store. IFA and IFU are related to IFG and IFL only through the
  contract of `Execution.ConditionHolds` and `ExecutionProofs.ConditionPairs`. If `Signed` returns an int16, then
  MLI, DVI and ASR wrap differently. MLI's `& 0x7fff` mask and DIV's
  computation of EX from the updated target are modelled as written; they are
  not compared with the DCPU-16 specification.
- Departures from DCPU-16 1.7 that the model reproduces as written and does
  not correct:
  - PUSH stores at SP and then lowers SP, and POP raises SP before reading
    (cpu/cpu.go:509-517); JSR and interrupt entry push the same way
    (cpu/cpu.go:101-102, 366-369). The specification has PUSH as `[--SP]`
    and POP as `[SP++]`. PEEK and PICK 0 therefore read the cell below the
    last pushed word (`Operands.PeekAfterPushMissesIt`).
  - MOD uses the signed remainder, the same as MDI (cpu/cpu.go:267-279).
  - SHR computes EX from the already shifted target (cpu/cpu.go:290-292).
  - JSR reads its operand after the push (cpu/cpu.go:366-369), so JSR
    through POP, PEEK or PICK 0 jumps to its own return address, and JSR SP
    jumps to the lowered SP (`ExecutionProofs.JsrPushesReturnAddress`).
  - A queued interrupt is triggered at the start of a step even when IA is
    0 (cpu/cpu.go:200-201), whereas a direct one is dropped then
    (cpu/cpu.go:89); the specification drops interrupts while IA is 0.
- Devices: the Go device objects, their handlers and their interrupt
  callbacks are outside the model. A device is its id, revision and
  manufacturer. HWI ends the step with `DeviceHandler(i)`, and `Run` takes the
  handler as a function on the storage.
- `Run`'s clock: the ticker and channel are replaced by a step budget
  (`ticks`). Only the outcome mapping is modelled: EXIT is success, PANIC and
  overload are errors.
- Host hooks (`Trace`, `InstructionHandler`, `NotifyBranchSkip`): the branch
  skip's address and cost are returned in the outcome; the other two hooks
  observe only and are dropped.
- The interrupt queue overflow is a Go panic; here it is the `Overload`
  outcome.
- Execution.SkipFrom: the skip loop is given 64K iterations of fuel, and
  running out of fuel is the `Hang` outcome. Divergence is not proved:
  `Hang` means 64K consecutive branches were visited, not that the Go loop
  never ends. The skip count is a 16-bit word in the emulator, so a skip of
  exactly 64K instructions reports cost 0.
- PICK (0x1a) consumes a next word that `Sizeof` does not count. This is
  modelled as written and stated by `Operands.PickConsumesUncountedWord` and
  `ExecutionProofs.PickOutrunsSizeof`. Two consequences follow and are kept:
  the address reported by a PANIC or a branch skip of an instruction with a
  PICK operand is one word too high (`ExecutionProofs.PanicReportsAddress`),
  and `skip` over such an instruction lands on its next word, which is then
  decoded as an instruction.
- PANIC's message text (`readString`) is not modelled; the outcome carries
  the message's address.
- `BlockListByCount.Sort` and `BlockListByCost.Sort` call the library's sort
  and are not modelled.
- `Len` has no separate member, because it is the sequence length;
  `Profiler.Swap` states that the length is kept.
- `ProfileData.CumulativeCost()` is taken to be a stored 64-bit value.
