/**
 * One execution step of the CPU, the conditional-skip rule, and the
 * outcome mapping of the run loop.
 *
 * Host hooks (tracing, the per-instruction handler and the branch-skip
 * notification) are replaced by the step's returned `Outcome`.
 */
module Execution {
  import opened Words
  import opened Instructions
  import opened Operands
  import opened Processor

  datatype Option<T> = None | Some(value: T)

  datatype Outcome =
    | Continue
      // a failed IF* skipped `cost` instructions; `pc` is what the emulator
      // hands to its branch-skip notification
    | BranchSkip(pc: Word, cost: Word)
      // HWI on an attached device: that device's handler runs next
    | DeviceHandler(index: Word)
      // EXIT: the emulator's io.EOF
    | Exit
      // PANIC: PC after operand decoding minus the instruction's Sizeof
      // (one word past the instruction when an operand is PICK), and the
      // address of its message
    | Panic(pc: Word, msg: Word)
      // the interrupt queue overflowed: the emulator panics
    | Overload
      // a failed IF* is followed only by branch instructions: the emulator's
      // skip loop never ends
    | Hang

  datatype StepResult = StepResult(cpu: Cpu, outcome: Outcome)

  // ---------------------------------------------------------------------
  // Skipping instructions after a failed condition.

  function OpAt(mem: Memory, pc: Word): Word {
    Decode(mem[pc]).op
  }

  /** `skip`: the address after the instruction at `pc`, by its `Sizeof`. */
  function NextPc(mem: Memory, pc: Word): (r: Word)
    ensures r == Add16(pc, 1) || r == Add16(pc, 2) || r == Add16(pc, 3)
  {
    var ins := Decode(mem[pc]);
    Add16(pc, Sizeof(ins.op, ins.a, ins.b))
  }

  /** The address reached from `pc` by skipping `n` instructions. */
  function Advance(mem: Memory, pc: Word, n: nat): Word
    decreases n
  {
    if n == 0 then pc else Advance(mem, NextPc(mem, pc), n - 1)
  }

  /** Skipping `n` instructions from `pc` is the rule for a failed
      condition: the first n-1 are branches and the n-th is not. */
  ghost predicate SkipsOver(mem: Memory, pc: Word, n: nat) {
    && n >= 1
    && (forall k :: 0 <= k < n - 1 ==> IsBranch(OpAt(mem, Advance(mem, pc, k))))
    && !IsBranch(OpAt(mem, Advance(mem, pc, n - 1)))
  }

  datatype Skipped = Skipped(pc: Word, count: nat)

  /** The loop of `skipBranch`, run for at most `fuel` instructions: skips
      instructions until one that is not a branch has been skipped. */
  function SkipFrom(mem: Memory, pc: Word, fuel: nat): (r: Option<Skipped>)
    ensures r.Some? ==> r.value.count <= fuel
    ensures r.Some? ==> SkipsOver(mem, pc, r.value.count)
    ensures r.Some? ==> r.value.pc == Advance(mem, pc, r.value.count)
    ensures r.None? ==> forall k :: 0 <= k < fuel ==> IsBranch(OpAt(mem, Advance(mem, pc, k)))
    decreases fuel
  {
    if fuel == 0 then None
    else
      var next := NextPc(mem, pc);
      if !IsBranch(OpAt(mem, pc)) then Some(Skipped(next, 1))
      else
        match SkipFrom(mem, next, fuel - 1)
        case None =>
          AllBranchesStep(mem, pc, fuel - 1);
          None
        case Some(k) =>
          SkipsOverStep(mem, pc, k.count);
          Some(Skipped(k.pc, k.count + 1))
  }

  lemma AdvanceFirst(mem: Memory, pc: Word, n: nat)
    ensures Advance(mem, pc, n + 1) == Advance(mem, NextPc(mem, pc), n)
  {
  }

  /** A branch at `pc` in front of a valid skip from the next instruction
      makes a skip one instruction longer. */
  lemma SkipsOverStep(mem: Memory, pc: Word, n: nat)
    requires IsBranch(OpAt(mem, pc))
    requires SkipsOver(mem, NextPc(mem, pc), n)
    ensures SkipsOver(mem, pc, n + 1)
    ensures Advance(mem, pc, n + 1) == Advance(mem, NextPc(mem, pc), n)
  {
    var next := NextPc(mem, pc);
    forall k | 0 <= k < n
      ensures IsBranch(OpAt(mem, Advance(mem, pc, k)))
    {
      if k > 0 {
        AdvanceFirst(mem, pc, k - 1);
      }
    }
    AdvanceFirst(mem, pc, n - 1);
  }

  lemma AllBranchesStep(mem: Memory, pc: Word, n: nat)
    requires IsBranch(OpAt(mem, pc))
    requires forall k :: 0 <= k < n ==> IsBranch(OpAt(mem, Advance(mem, NextPc(mem, pc), k)))
    ensures forall k :: 0 <= k < n + 1 ==> IsBranch(OpAt(mem, Advance(mem, pc, k)))
  {
    forall k | 0 <= k < n + 1
      ensures IsBranch(OpAt(mem, Advance(mem, pc, k)))
    {
      if k > 0 {
        AdvanceFirst(mem, pc, k - 1);
      }
    }
  }

  /** `skipBranch`: with 64K addresses, a chain of more than 64K branch
      instructions revisits an address and the emulator's loop never ends. */
  function SkipBranch(c: Cpu, size: Word): (r: StepResult)
    ensures r.cpu == c.(store := r.cpu.store)
    ensures r.cpu.store == c.store.(pc := r.cpu.store.pc)
    ensures r.outcome.BranchSkip? || r.outcome.Hang?
    ensures r.outcome.BranchSkip? ==> r.outcome.pc == Sub16(c.store.pc, size)
  {
    var s := c.store;
    match SkipFrom(s.mem, s.pc, WordModulus)
    case None => StepResult(c, Hang)
    case Some(k) =>
      // the emulator counts skipped instructions in a Word
      StepResult(c.(store := s.(pc := k.pc)), BranchSkip(Sub16(s.pc, size), Wrap16(k.count)))
  }

  /** Whether an IF* condition holds, so that the next instruction runs. */
  function ConditionHolds(op: Word, x: Word, y: Word): (r: bool)
    requires IsBranch(op)
    // the signed tests agree with the unsigned ones on words below 0x8000,
    // and order a word with the sign bit set below one without it
    ensures op == IFA && x < 0x8000 && y < 0x8000 ==> (r <==> x > y)
    ensures op == IFU && x < 0x8000 && y < 0x8000 ==> (r <==> x < y)
    ensures op == IFA && x >= 0x8000 && y < 0x8000 ==> !r
    ensures op == IFU && x >= 0x8000 && y < 0x8000 ==> r
    ensures op == IFA && x < 0x8000 && y >= 0x8000 ==> r
    ensures op == IFU && x < 0x8000 && y >= 0x8000 ==> !r
  {
    if op == IFB then And16(x, y) != 0
    else if op == IFC then And16(x, y) == 0
    else if op == IFE then x == y
    else if op == IFN then x != y
    else if op == IFG then x > y
    else if op == IFA then Signed(x) > Signed(y)
    else if op == IFL then x < y
    else Signed(x) < Signed(y)  // IFU
  }

  // ---------------------------------------------------------------------
  // Operand preparation.

  /** The instruction at PC with its operands resolved. `va` is the write
      target of a basic instruction; a special instruction has none and
      carries a placeholder that is never used. */
  datatype Prepared = Prepared(store: Storage, ins: Instruction, size: Word, va: Location, vb: Location)

  /** `nextInstruction` followed by operand decoding: target first, then
      source, each seeing PC and SP as the previous one left them. */
  function Prepare(s: Storage): (p: Prepared)
    ensures p.ins == Decode(s.mem[s.pc])
    ensures p.size == Sizeof(p.ins.op, p.ins.a, p.ins.b)
    ensures p.store.mem == s.mem
    ensures p.store == s.(pc := p.store.pc, sp := p.store.sp)
  {
    var ins := Decode(s.mem[s.pc]);
    var size := Sizeof(ins.op, ins.a, ins.b);
    var s1 := s.(pc := Add16(s.pc, 1));
    if ins.op != EXT then
      var da := DecodeOperand(s1, ins.a, true);
      var db := DecodeOperand(da.store, ins.b, false);
      Prepared(db.store, ins, size, da.loc, db.loc)
    else
      var db := DecodeOperand(s1, ins.b, false);
      Prepared(db.store, ins, size, Lit(0), db.loc)
  }

  // ---------------------------------------------------------------------
  // Execution.

  function Done(c: Cpu, s: Storage): StepResult {
    StepResult(c.(store := s), Continue)
  }

  /** Stores the low half of a 32-bit result at the target and its high
      half in EX, in that order. */
  function WriteWide(s: Storage, va: Location, u: UInt32): Storage {
    Write(s, va, Lo16(u)).(ex := Hi16(u))
  }

  /** After DIV stores `x / y` (y != 0) at `va`, the divisor re-read at `vb`
      is still non-zero: either `vb` is another location, or it is `va`
      itself and then holds x / x = 1. */
  lemma RereadDivisorNonZero(s: Storage, va: Location, vb: Location)
    requires Read(s, vb) != 0
    ensures Read(Write(s, va, DivWord(Read(s, va), Read(s, vb))), vb) != 0
  {
    var x, y := Read(s, va), Read(s, vb);
    var q := DivWord(x, y);
    if va == vb && !va.Lit? {
      DivWordSelf(y);
    } else {
      ReadOverWrite(s, va, vb, q);
    }
  }

  /** MLI: an int32 product, of which the target keeps only the low 15
      bits; EX gets the product shifted right by 16. */
  function SignedProduct(s: Storage, va: Location, x: Word, y: Word): Storage {
    var i := Signed(x) * Signed(y);
    Write(s, va, Wrap16(i % 0x8000)).(ex := Wrap16(Asr32(i, 16)))
  }

  /** DIV: the quotient goes to the target, then EX gets the fractional
      part computed from the quotient and the re-read divisor. */
  function UnsignedQuotient(s: Storage, va: Location, vb: Location): Storage {
    var x, y := Read(s, va), Read(s, vb);
    if y == 0 then Write(s, va, 0).(ex := 0)
    else
      var q := DivWord(x, y);
      var s1 := Write(s, va, q);
      RereadDivisorNonZero(s, va, vb);
      var y2 := Read(s1, vb);
      s1.(ex := Wrap16(Shl32(q, 16) / y2))
  }

  /** DVI: int32 quotients truncated toward zero. The one int32 overflow
      (-2^31 / -1) wraps by a multiple of 2^16 and so does not show in the
      stored word. */
  function SignedQuotient(s: Storage, va: Location, x: Word, y: Word): Storage {
    if y == 0 then Write(s, va, 0).(ex := 0)
    else
      var sa, sb := Signed(x), Signed(y);
      Write(s, va, Wrap16(GoQuot(sa, sb))).(ex := Wrap16(GoQuot(sa * 0x1_0000, sb)))
  }

  /** MOD and MDI: the remainder of the int32 values, sign of the dividend. */
  function SignedRemainder(s: Storage, va: Location, x: Word, y: Word): Storage {
    if y == 0 then Write(s, va, 0)
    else Write(s, va, Wrap16(GoRem(Signed(x), Signed(y))))
  }

  /** SHR: the shifted word goes to the target, then EX gets the bits
      shifted out, shifting by the re-read amount. */
  function LogicalShiftRight(s: Storage, va: Location, vb: Location): Storage {
    var q := ShrWord(Read(s, va), Read(s, vb));
    var s1 := Write(s, va, q);
    var y2 := Read(s1, vb);
    s1.(ex := Wrap16(Shr32(Shl32(q, 16), y2)))
  }

  /** ASR, likewise on the sign-extended value. Shifting the int32 left by
      16 cannot overflow, so it is a plain product. */
  function ArithmeticShiftRight(s: Storage, va: Location, vb: Location): Storage {
    var sa := Signed(Read(s, va));
    var s1 := Write(s, va, Wrap16(Asr32(sa, Read(s, vb))));
    var y2 := Read(s1, vb);
    s1.(ex := Wrap16(Asr32(sa * 0x1_0000, y2)))
  }

  /** A basic instruction, once its operands are resolved. Values are read
      through the locations at the moment the emulator dereferences them:
      DIV, SHR and ASR re-read `*vb` after storing the target, and DIV and
      SHR re-read `*va`, which always yields the value just stored. */
  function ExecuteBasic(c: Cpu, op: Word, size: Word, va: Location, vb: Location): (r: StepResult)
    ensures r.cpu.devices == c.devices && r.cpu.queue == c.queue && r.cpu.queueing == c.queueing
    ensures r.outcome.Continue? || r.outcome.BranchSkip? || r.outcome.Hang?
    ensures r.cpu.store.ia == c.store.ia
  {
    var s := c.store;
    var x := Read(s, va);
    var y := Read(s, vb);
    if op == SET then Done(c, Write(s, va, y))
    else if op == ADD then Done(c, WriteWide(s, va, Wrap32(x + y)))
    else if op == SUB then Done(c, WriteWide(s, va, Wrap32(x - y)))
    else if op == MUL then Done(c, WriteWide(s, va, Mul32(x, y)))
    else if op == MLI then Done(c, SignedProduct(s, va, x, y))
    else if op == DIV then Done(c, UnsignedQuotient(s, va, vb))
    else if op == DVI then Done(c, SignedQuotient(s, va, x, y))
    else if op == MOD || op == MDI then Done(c, SignedRemainder(s, va, x, y))
    else if op == AND then Done(c, Write(s, va, And16(x, y)))
    else if op == BOR then Done(c, Write(s, va, Or16(x, y)))
    else if op == XOR then Done(c, Write(s, va, Xor16(x, y)))
    else if op == SHR then Done(c, LogicalShiftRight(s, va, vb))
    else if op == ASR then Done(c, ArithmeticShiftRight(s, va, vb))
    else if op == SHL then Done(c, WriteWide(s, va, Shl32(x, y)))
    else if IsBranch(op) then
      if ConditionHolds(op, x, y) then Done(c, s) else SkipBranch(c, size)
    else if op == ADX then Done(c, WriteWide(s, va, Wrap32(x + y + s.ex)))
    else if op == SBX then Done(c, WriteWide(s, va, Wrap32(x - y + s.ex)))
    else if op == STI then
      var s1 := Write(s, va, y);
      Done(c, s1.(i := Add16(s1.i, 1), j := Add16(s1.j, 1)))
    else if op == STD then
      var s1 := Write(s, va, y);
      Done(c, s1.(i := Sub16(s1.i, 1), j := Sub16(s1.j, 1)))
    else
      // unassigned basic opcode: only the operand side effects remain
      Done(c, s)
  }

  /** A special instruction (opcode EXT) with operand `vb`. */
  function ExecuteSpecial(c: Cpu, sub: Word, size: Word, vb: Location): (r: StepResult)
    ensures r.cpu.devices == c.devices
    ensures r.cpu.queue == c.queue || (sub == INT && r.cpu.queue == c.queue + [Read(c.store, vb)])
    ensures r.outcome.Overload? <==> sub == INT && c.queueing && |c.queue| >= MaxIntQueue
    ensures Valid(c) ==> Valid(r.cpu)
  {
    var s := c.store;
    var y := Read(s, vb);
    if sub == JSR then
      var s1 := s.(mem := s.mem[s.sp := s.pc], sp := Sub16(s.sp, 1));
      Done(c, s1.(pc := Read(s1, vb)))
    else if sub == INT then
      match Interrupt(c, y)
      case Err(_) => StepResult(c, Overload)
      case Ok(c1) => StepResult(c1, Continue)
    else if sub == IAG then
      Done(c, Write(s, vb, s.ia))
    else if sub == IAS then
      Done(c, s.(ia := y))
    else if sub == RFI then
      StepResult(ReturnFromInterrupt(c), Continue)
    else if sub == IAQ then
      StepResult(c.(queueing := y != 0), Continue)
    else if sub == HWN then
      Done(c, Write(s, vb, Wrap16(|c.devices|)))
    else if sub == HWQ then
      if y >= Wrap16(|c.devices|) then
        Done(c, s.(a := 0, b := 0, c := 0, x := 0, y := 0))
      else
        var dev := c.devices[y];
        Done(c, s.(a := dev.id % 0x1_0000, b := (dev.id / 0x1_0000) % 0x1_0000,
                   c := dev.revision,
                   x := dev.manufacturer % 0x1_0000, y := (dev.manufacturer / 0x1_0000) % 0x1_0000))
    else if sub == HWI then
      if y < Wrap16(|c.devices|) then StepResult(c, DeviceHandler(y)) else Done(c, s)
    else if sub == PANIC then
      StepResult(c, Panic(Sub16(s.pc, size), y))
    else if sub == EXIT then
      StepResult(c, Exit)
    else
      // unassigned special opcode
      Done(c, s)
  }

  /** The number of queued interrupts a step takes off the queue. */
  function Dequeued(c: Cpu): nat {
    if !c.queueing && |c.queue| > 0 then 1 else 0
  }

  /** `Step`: service at most one queued interrupt, fetch and resolve the
      instruction at PC, and execute it. */
  function Step(c: Cpu): (r: StepResult)
    ensures r.cpu.devices == c.devices
    ensures Valid(c) ==> Valid(r.cpu)
    ensures c.queue[Dequeued(c)..] <= r.cpu.queue
    ensures |r.cpu.queue| <= |c.queue| - Dequeued(c) + 1
  {
    var c0 := ServiceQueue(c);
    var p := Prepare(c0.store);
    if p.ins.op != EXT then
      ExecuteBasic(c0.(store := p.store), p.ins.op, p.size, p.va, p.vb)
    else
      ExecuteSpecial(c0.(store := p.store), p.ins.a, p.size, p.vb)
  }

  // ---------------------------------------------------------------------
  // The run loop.

  datatype RunStatus =
    | Running           // still going when the ticks ran out
    | Finished          // stopped by EXIT: reported as success
    | Failed(fault: Outcome)
    | Stuck             // inside a skip loop that never ends

  /** Runs at most `ticks` steps. `handler` stands for the attached devices'
      interrupt handlers, which act on the storage. */
  function RunFor(c: Cpu, ticks: nat, handler: (Word, Storage) -> Storage): (r: (Cpu, RunStatus))
    ensures r.1.Failed? ==> r.1.fault.Panic? || r.1.fault.Overload?
    ensures ticks == 0 ==> r == (c, Running)
    ensures r.0.devices == c.devices
    ensures Valid(c) ==> Valid(r.0)
    decreases ticks
  {
    if ticks == 0 then (c, Running)
    else
      var st := Step(c);
      match st.outcome
      case Exit => (st.cpu, Finished)
      case Panic(_, _) => (st.cpu, Failed(st.outcome))
      case Overload => (st.cpu, Failed(st.outcome))
      case Hang => (st.cpu, Stuck)
      case DeviceHandler(i) => RunFor(st.cpu.(store := handler(i, st.cpu.store)), ticks - 1, handler)
      case Continue => RunFor(st.cpu, ticks - 1, handler)
      case BranchSkip(_, _) => RunFor(st.cpu, ticks - 1, handler)
  }

  /** `Run`: start at `entry` and step until the program stops. */
  function Run(c: Cpu, entry: Word, ticks: nat, handler: (Word, Storage) -> Storage): (r: (Cpu, RunStatus))
    ensures r.1.Failed? ==> r.1.fault.Panic? || r.1.fault.Overload?
    ensures r.0.devices == c.devices
    ensures Valid(c) ==> Valid(r.0)
  {
    RunFor(c.(store := c.store.(pc := entry)), ticks, handler)
  }
}
