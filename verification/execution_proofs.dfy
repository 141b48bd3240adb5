/**
 * Properties of one execution step, stated against independent integer
 * arithmetic and against the instruction-length rule.
 */
module ExecutionProofs {
  import opened Words
  import opened Instructions
  import opened Operands
  import opened Processor
  import opened Execution

  /** The storage a basic instruction leaves behind. */
  function After(c: Cpu, op: Word, va: Location, vb: Location): Storage {
    ExecuteBasic(c, op, 1, va, vb).cpu.store
  }

  /** A target that holds what is stored in it and is not EX, so the later
      EX update does not overwrite it. */
  predicate PlainTarget(va: Location) {
    !va.Lit? && va != Reg(EX)
  }

  lemma ReadAfterWide(s: Storage, va: Location, u: UInt32)
    requires PlainTarget(va)
    ensures Read(WriteWide(s, va, u), va) == Lo16(u)
    ensures WriteWide(s, va, u).ex == Hi16(u)
  {
    var t := Write(s, va, Lo16(u));
    assert Read(t, va) == Lo16(u);
    match va
    case Reg(r) => assert Get(t.(ex := Hi16(u)), r) == Get(t, r);
    case Mem(_) =>
  }

  // ---------------------------------------------------------------------
  // Unsigned arithmetic: target and EX together hold the full result.

  /** ADD: target + 0x10000 * EX is the exact sum, so EX is the carry. */
  lemma {:induction false} AddCarries(c: Cpu, va: Location, vb: Location)
    requires PlainTarget(va)
    ensures Read(After(c, ADD, va, vb), va) + WordModulus * After(c, ADD, va, vb).ex
            == Read(c.store, va) + Read(c.store, vb)
    ensures After(c, ADD, va, vb).ex <= 1
  {
    var u := Wrap32(Read(c.store, va) + Read(c.store, vb));
    assert After(c, ADD, va, vb) == WriteWide(c.store, va, u);
    ReadAfterWide(c.store, va, u);
    SplitHalves(u);
  }

  /** SUB: the target is the difference modulo 2^16, and EX is 0xffff
      exactly when the subtrahend is larger (a borrow) and 0 otherwise. */
  lemma {:induction false} SubBorrows(c: Cpu, va: Location, vb: Location)
    requires PlainTarget(va)
    ensures Read(After(c, SUB, va, vb), va) == Wrap16(Read(c.store, va) - Read(c.store, vb))
    ensures After(c, SUB, va, vb).ex == 0xffff <==> Read(c.store, vb) > Read(c.store, va)
    ensures After(c, SUB, va, vb).ex == 0 <==> Read(c.store, vb) <= Read(c.store, va)
  {
    var x: int, y: int := Read(c.store, va), Read(c.store, vb);
    var u := Wrap32(x - y);
    assert After(c, SUB, va, vb) == WriteWide(c.store, va, u);
    ReadAfterWide(c.store, va, u);
    if y > x {
      assert u == UInt32Modulus + x - y;
      HighHalf(u, 0xffff);
    } else {
      assert u == x - y;
      HighHalf(u, 0);
    }
  }

  /** The high half of a 32-bit value within a known 64K band. */
  lemma HighHalf(u: UInt32, h: Word)
    requires h * WordModulus <= u < h * WordModulus + WordModulus
    ensures Hi16(u) == h
  {
  }

  lemma ProductBound(x: Word, y: Word)
    ensures 0 <= x * y < UInt32Modulus
  {
    MulMonotone(x, y, 0xffff);
  }

  /** MUL: target + 0x10000 * EX is the exact product. */
  lemma {:induction false} MulSplitsProduct(c: Cpu, va: Location, vb: Location)
    requires PlainTarget(va)
    ensures Read(After(c, MUL, va, vb), va) + WordModulus * After(c, MUL, va, vb).ex
            == Read(c.store, va) * Read(c.store, vb)
  {
    var x: int, y: int := Read(c.store, va), Read(c.store, vb);
    ProductBound(x, y);
    var u := Mul32(x, y);
    assert u == x * y;
    assert After(c, MUL, va, vb) == WriteWide(c.store, va, u);
    ReadAfterWide(c.store, va, u);
    SplitHalves(u);
  }

  lemma {:induction false} Pow2Monotone(m: nat, n: nat)
    requires m <= n
    ensures Pow2(m) <= Pow2(n)
    decreases n
  {
    if m < n {
      Pow2Monotone(m, n - 1);
    }
  }

  lemma MulMonotone(x: nat, p: nat, q: nat)
    requires p <= q
    ensures x * p <= x * q
  {
  }

  /** Go's uint32 left shift of a word: exact below 16, zero from 32 on. */
  lemma ShiftedWord(x: Word, n: nat)
    ensures n < 16 ==> Shl32(x, n) == x * Pow2(n)
    ensures n >= 32 ==> Shl32(x, n) == 0
  {
    if n < 16 {
      Pow2Monotone(n, 15);
      Pow2Of15();
      var p := Pow2(n);
      MulMonotone(x, p, 0x8000);
      assert x * p < UInt32Modulus;
    }
  }

  lemma Pow2Of15()
    ensures Pow2(15) == 0x8000
  {
    assert Pow2(3) == 8;
    assert Pow2(6) == 64;
    assert Pow2(9) == 512;
    assert Pow2(12) == 4096;
  }

  /** SHL: for a shift below 32, target + 0x10000 * EX is x * 2^n reduced
      modulo 2^32, with no bit lost below 16; a shift by 32 or more clears
      both. */
  lemma {:induction false} ShlSplitsShift(c: Cpu, va: Location, vb: Location)
    requires PlainTarget(va)
    ensures Read(c.store, vb) < 32 ==>
              Read(After(c, SHL, va, vb), va) + WordModulus * After(c, SHL, va, vb).ex
              == (Read(c.store, va) * Pow2(Read(c.store, vb))) % UInt32Modulus
    ensures Read(c.store, vb) < 16 ==>
              Read(After(c, SHL, va, vb), va) + WordModulus * After(c, SHL, va, vb).ex
              == Read(c.store, va) * Pow2(Read(c.store, vb))
    ensures Read(c.store, vb) >= 32 ==>
              Read(After(c, SHL, va, vb), va) == 0 && After(c, SHL, va, vb).ex == 0
  {
    var x, n := Read(c.store, va), Read(c.store, vb);
    var u := Shl32(x, n);
    assert After(c, SHL, va, vb) == WriteWide(c.store, va, u);
    ReadAfterWide(c.store, va, u);
    SplitHalves(u);
    ShiftedWord(x, n);
  }

  /** ADX: target + 0x10000 * EX is the exact sum including the old EX. */
  lemma {:induction false} AdxCarries(c: Cpu, va: Location, vb: Location)
    requires PlainTarget(va)
    ensures Read(After(c, ADX, va, vb), va) + WordModulus * After(c, ADX, va, vb).ex
            == Read(c.store, va) + Read(c.store, vb) + c.store.ex
  {
    var u := Wrap32(Read(c.store, va) + Read(c.store, vb) + c.store.ex);
    assert After(c, ADX, va, vb) == WriteWide(c.store, va, u);
    ReadAfterWide(c.store, va, u);
    SplitHalves(u);
  }

  /** SBX: target + 0x10000 * EX is a - b + EX, taken modulo 2^32 when it
      is negative, so a borrow leaves 0xffff in EX. */
  lemma {:induction false} SbxBorrows(c: Cpu, va: Location, vb: Location)
    requires PlainTarget(va)
    ensures var d := Read(c.store, va) - Read(c.store, vb) + c.store.ex;
            Read(After(c, SBX, va, vb), va) + WordModulus * After(c, SBX, va, vb).ex
            == if d >= 0 then d else d + UInt32Modulus
  {
    var d := Read(c.store, va) - Read(c.store, vb) + c.store.ex;
    var u := Wrap32(d);
    assert u == if d >= 0 then d else d + UInt32Modulus;
    assert After(c, SBX, va, vb) == WriteWide(c.store, va, u);
    ReadAfterWide(c.store, va, u);
    SplitHalves(u);
  }

  /** SHR: the target receives a / 2^b rounded down, and 0 for a shift by
      16 or more. */
  lemma {:induction false} ShrStoresQuotient(c: Cpu, va: Location, vb: Location)
    requires PlainTarget(va)
    ensures var x, n, q := Read(c.store, va), Read(c.store, vb), Read(After(c, SHR, va, vb), va);
            n < 16 ==> q * Pow2(n) <= x < (q + 1) * Pow2(n)
    ensures Read(c.store, vb) >= 16 ==> Read(After(c, SHR, va, vb), va) == 0
  {
    var x, n := Read(c.store, va), Read(c.store, vb);
    ShrAfter(c, va, vb);
    ShrTarget(c.store, va, vb);
    var q := Read(After(c, SHR, va, vb), va);
    assert q == ShrWord(x, n);
    ShrWordDivides(x, n);
  }

  lemma ShrWordDivides(x: Word, n: nat)
    ensures n < 16 ==> ShrWord(x, n) * Pow2(n) <= x < (ShrWord(x, n) + 1) * Pow2(n)
    ensures n >= 16 ==> ShrWord(x, n) == 0
  {
    if n < 16 {
      HalveTimesDivides(x, n);
    }
  }

  lemma ShrAfter(c: Cpu, va: Location, vb: Location)
    ensures After(c, SHR, va, vb) == LogicalShiftRight(c.store, va, vb)
  {
  }

  /** SHR's later EX update leaves the shifted word at the target. */
  lemma ShrTarget(s: Storage, va: Location, vb: Location)
    requires PlainTarget(va)
    ensures Read(LogicalShiftRight(s, va, vb), va) == ShrWord(Read(s, va), Read(s, vb))
  {
    var s1 := Write(s, va, ShrWord(Read(s, va), Read(s, vb)));
    var t := LogicalShiftRight(s, va, vb);
    assert t == s1.(ex := t.ex);
    match va {
      case Reg(r) => assert Get(t, r) == Get(s1, r);
      case Mem(_) =>
    }
  }

  /** SET copies the source to the target. */
  lemma SetCopiesSource(c: Cpu, va: Location, vb: Location)
    requires !va.Lit?
    ensures Read(After(c, SET, va, vb), va) == Read(c.store, vb)
    ensures After(c, SET, va, vb).ex == c.store.ex || va == Reg(EX)
  {
  }

  /** AND, BOR and XOR store the bitwise combination of the two operands. */
  lemma BitwiseStores(c: Cpu, va: Location, vb: Location)
    requires !va.Lit?
    ensures Read(After(c, AND, va, vb), va) == And16(Read(c.store, va), Read(c.store, vb))
    ensures Read(After(c, BOR, va, vb), va) == Or16(Read(c.store, va), Read(c.store, vb))
    ensures Read(After(c, XOR, va, vb), va) == Xor16(Read(c.store, va), Read(c.store, vb))
  {
    var x, y := Read(c.store, va), Read(c.store, vb);
    assert After(c, AND, va, vb) == Write(c.store, va, And16(x, y));
    assert After(c, BOR, va, vb) == Write(c.store, va, Or16(x, y));
    assert After(c, XOR, va, vb) == Write(c.store, va, Xor16(x, y));
  }

  // ---------------------------------------------------------------------
  // Division by zero.

  /** DIV by zero stores 0 at the target and 0 in EX. */
  lemma DivByZero(c: Cpu, va: Location, vb: Location)
    requires !va.Lit? && Read(c.store, vb) == 0
    ensures Read(After(c, DIV, va, vb), va) == 0
    ensures After(c, DIV, va, vb).ex == 0
  {
    var t := Write(c.store, va, 0);
    match va
    case Reg(r) => assert Get(t.(ex := 0), r) == 0;
    case Mem(_) =>
  }

  /** DVI by zero, likewise. */
  lemma DviByZero(c: Cpu, va: Location, vb: Location)
    requires !va.Lit? && Read(c.store, vb) == 0
    ensures Read(After(c, DVI, va, vb), va) == 0
    ensures After(c, DVI, va, vb).ex == 0
  {
    var t := Write(c.store, va, 0);
    match va
    case Reg(r) => assert Get(t.(ex := 0), r) == 0;
    case Mem(_) =>
  }

  /** MOD and MDI by zero store 0 at the target and leave EX alone. */
  lemma ModByZero(c: Cpu, op: Word, va: Location, vb: Location)
    requires op == MOD || op == MDI
    requires !va.Lit? && Read(c.store, vb) == 0
    ensures Read(After(c, op, va, vb), va) == 0
    ensures va != Reg(EX) ==> After(c, op, va, vb).ex == c.store.ex
  {
  }

  /** DIV by a non-zero divisor stores the unsigned quotient: the largest
      q with q * y <= x. */
  lemma DivQuotient(c: Cpu, va: Location, vb: Location)
    requires PlainTarget(va) && Read(c.store, vb) != 0
    ensures Read(After(c, DIV, va, vb), va) * Read(c.store, vb) <= Read(c.store, va)
    ensures Read(c.store, va) < (Read(After(c, DIV, va, vb), va) + 1) * Read(c.store, vb)
  {
    var x, y := Read(c.store, va), Read(c.store, vb);
    var q := DivWord(x, y);
    var t := Write(c.store, va, q);
    RereadDivisorNonZero(c.store, va, vb);
    var y2 := Read(t, vb);
    assert After(c, DIV, va, vb) == t.(ex := Wrap16(Shl32(q, 16) / y2));
    match va
    case Reg(r) => assert Get(t.(ex := Wrap16(Shl32(q, 16) / y2)), r) == Get(t, r);
    case Mem(_) =>
  }

  // ---------------------------------------------------------------------
  // The conditional-skip rule.

  /** An IF* instruction does nothing when its condition holds and runs
      the skip rule when it fails. */
  lemma ConditionalRunsOrSkips(c: Cpu, op: Word, size: Word, va: Location, vb: Location)
    requires IsBranch(op)
    ensures ConditionHolds(op, Read(c.store, va), Read(c.store, vb)) ==>
              ExecuteBasic(c, op, size, va, vb) == StepResult(c, Continue)
    ensures !ConditionHolds(op, Read(c.store, va), Read(c.store, vb)) ==>
              ExecuteBasic(c, op, size, va, vb) == SkipBranch(c, size)
  {
    assert op != SET && op != ADD && op != SUB && op != MUL && op != MLI && op != DIV && op != DVI;
    assert op != MOD && op != MDI && op != AND && op != BOR && op != XOR;
    assert op != SHR && op != ASR && op != SHL;
  }

  /** The IF* tests come in complementary pairs: IFB and IFC, IFE and
      IFN; IFG and IFL (and IFA and IFU) never hold together, and exactly
      one of them holds unless the operands are equal. */
  lemma ConditionPairs(x: Word, y: Word)
    ensures ConditionHolds(IFB, x, y) <==> !ConditionHolds(IFC, x, y)
    ensures ConditionHolds(IFE, x, y) <==> !ConditionHolds(IFN, x, y)
    ensures !(ConditionHolds(IFG, x, y) && ConditionHolds(IFL, x, y))
    ensures !(ConditionHolds(IFA, x, y) && ConditionHolds(IFU, x, y))
    ensures x != y ==> (ConditionHolds(IFG, x, y) || ConditionHolds(IFL, x, y))
    ensures x != y ==> (ConditionHolds(IFA, x, y) || ConditionHolds(IFU, x, y))
  {
  }

  /** `r` is the result of skipping `n` instructions from `c`'s PC by the
      skip rule, with the count reported as the cost. */
  ghost predicate SkippedExactly(c: Cpu, r: StepResult, n: nat) {
    && 1 <= n <= WordModulus
    && SkipsOver(c.store.mem, c.store.pc, n)
    && r.cpu.store.pc == Advance(c.store.mem, c.store.pc, n)
    && r.outcome.BranchSkip?
    && r.outcome.cost == Wrap16(n)
    && (n < WordModulus ==> r.outcome.cost == n >= 1)
  }

  /** The skip rule skips every following branch instruction and then one
      more instruction, and reports the number skipped as the cost, which
      is at least 1 unless 64K instructions were skipped. */
  lemma {:induction false} SkipRuleSkips(c: Cpu, size: Word)
    requires SkipBranch(c, size).outcome.BranchSkip?
    ensures exists n :: SkippedExactly(c, SkipBranch(c, size), n)
  {
    var s := c.store;
    var k := SkipFrom(s.mem, s.pc, WordModulus);
    assert k.Some?;
    var n := k.value.count;
    var r := SkipBranch(c, size);
    assert r == StepResult(c.(store := s.(pc := k.value.pc)), BranchSkip(Sub16(s.pc, size), Wrap16(n)));
    assert r.outcome.cost == Wrap16(n);
    assert r.cpu.store.pc == Advance(s.mem, s.pc, n);
    assert SkippedExactly(c, r, n);
  }

  /** The skip rule hangs exactly when the chain of 64K instructions from PC
      holds nothing but branches. */
  lemma {:induction false} SkipRuleHangs(c: Cpu, size: Word)
    ensures SkipBranch(c, size).outcome.Hang? <==>
              forall k :: 0 <= k < WordModulus ==>
                IsBranch(OpAt(c.store.mem, Advance(c.store.mem, c.store.pc, k)))
  {
    var s := c.store;
    assert SkipBranch(c, size).outcome.Hang? <==> SkipFrom(s.mem, s.pc, WordModulus).None?;
    SkipFromFails(s.mem, s.pc);
  }

  /** The skip loop runs out of 64K fuel exactly when every instruction it
      visits is a branch. */
  lemma SkipFromFails(mem: Memory, pc: Word)
    ensures SkipFrom(mem, pc, WordModulus).None? <==>
              forall k :: 0 <= k < WordModulus ==> IsBranch(OpAt(mem, Advance(mem, pc, k)))
  {
    SkipFromFailsWithin(mem, pc, WordModulus);
  }

  /** The same for any fuel. */
  lemma {:induction false} SkipFromFailsWithin(mem: Memory, pc: Word, fuel: nat)
    ensures SkipFrom(mem, pc, fuel).None? <==>
              forall k :: 0 <= k < fuel ==> IsBranch(OpAt(mem, Advance(mem, pc, k)))
  {
    var r := SkipFrom(mem, pc, fuel);
    if r.Some? {
      var n := r.value.count;
      assert n <= fuel && SkipsOver(mem, pc, n);
      NotAllBranches(mem, pc, fuel, n - 1);
    }
  }

  lemma NotAllBranches(mem: Memory, pc: Word, fuel: nat, m: nat)
    requires m < fuel && !IsBranch(OpAt(mem, Advance(mem, pc, m)))
    ensures !(forall k :: 0 <= k < fuel ==> IsBranch(OpAt(mem, Advance(mem, pc, k))))
  {
  }

  // ---------------------------------------------------------------------
  // Subroutine calls and the interrupt address.

  /** JSR pushes the return address (the PC after the instruction) and
      jumps to the operand, which is read after the push: an operand that
      is the pushed cell (POP, PEEK or PICK 0) yields the return address
      itself, and SP yields the lowered SP. */
  lemma JsrPushesReturnAddress(c: Cpu, size: Word, vb: Location)
    ensures ExecuteSpecial(c, JSR, size, vb).outcome == Continue
    ensures ExecuteSpecial(c, JSR, size, vb).cpu.store.mem[c.store.sp] == c.store.pc
    ensures ExecuteSpecial(c, JSR, size, vb).cpu.store.sp == Sub16(c.store.sp, 1)
    ensures vb != Mem(c.store.sp) && vb != Reg(SP) ==>
              ExecuteSpecial(c, JSR, size, vb).cpu.store.pc == Read(c.store, vb)
    ensures vb == Mem(c.store.sp) ==> ExecuteSpecial(c, JSR, size, vb).cpu.store.pc == c.store.pc
    ensures vb == Reg(SP) ==> ExecuteSpecial(c, JSR, size, vb).cpu.store.pc == Sub16(c.store.sp, 1)
  {
    var s := c.store;
    var s1 := s.(mem := s.mem[s.sp := s.pc], sp := Sub16(s.sp, 1));
    match vb
    case Reg(r) => if r != SP { assert Get(s1, r) == Get(s, r); }
    case Mem(_) =>
    case Lit(_) =>
  }

  /** IAS followed by IAG reads back the interrupt address that was set. */
  lemma IasThenIag(c: Cpu, size: Word, src: Location, dst: Location)
    requires !dst.Lit?
    ensures var c1 := ExecuteSpecial(c, IAS, size, src).cpu;
            Read(ExecuteSpecial(c1, IAG, size, dst).cpu.store, dst) == Read(c.store, src)
  {
  }

  /** IAQ turns queueing on exactly for a non-zero operand, and changes
      nothing else. */
  lemma IaqSetsQueueing(c: Cpu, size: Word, vb: Location)
    ensures ExecuteSpecial(c, IAQ, size, vb) ==
            StepResult(c.(queueing := Read(c.store, vb) != 0), Continue)
  {
  }

  /** STI copies the source to the target and then moves I and J forward;
      STD copies likewise and moves them back. */
  lemma StiStdCopyAndMove(c: Cpu, va: Location, vb: Location)
    requires !va.Lit? && va != Reg(I) && va != Reg(J)
    ensures Read(After(c, STI, va, vb), va) == Read(c.store, vb)
    ensures After(c, STI, va, vb).i == Add16(c.store.i, 1)
    ensures After(c, STI, va, vb).j == Add16(c.store.j, 1)
    ensures Read(After(c, STD, va, vb), va) == Read(c.store, vb)
    ensures After(c, STD, va, vb).i == Sub16(c.store.i, 1)
    ensures After(c, STD, va, vb).j == Sub16(c.store.j, 1)
  {
    var t := Write(c.store, va, Read(c.store, vb));
    assert t.i == c.store.i && t.j == c.store.j;
    assert After(c, STI, va, vb) == t.(i := Add16(t.i, 1), j := Add16(t.j, 1));
    assert After(c, STD, va, vb) == t.(i := Sub16(t.i, 1), j := Sub16(t.j, 1));
    match va
    case Reg(r) =>
      assert Get(t.(i := Add16(t.i, 1), j := Add16(t.j, 1)), r) == Get(t, r);
      assert Get(t.(i := Sub16(t.i, 1), j := Sub16(t.j, 1)), r) == Get(t, r);
    case Mem(_) =>
  }

  // ---------------------------------------------------------------------
  // Hardware queries.

  /** HWQ for a device index past the attached devices zeroes A, B, C, X
      and Y and changes nothing else. */
  lemma HwqUnknownDevice(c: Cpu, size: Word, vb: Location)
    requires Read(c.store, vb) >= Wrap16(|c.devices|)
    ensures ExecuteSpecial(c, HWQ, size, vb) ==
            StepResult(c.(store := c.store.(a := 0, b := 0, c := 0, x := 0, y := 0)), Continue)
  {
  }

  /** HWQ for an attached device reports its id in A (low) and B (high),
      its revision in C and its manufacturer in X (low) and Y (high). */
  lemma HwqKnownDevice(c: Cpu, size: Word, vb: Location)
    requires Read(c.store, vb) < Wrap16(|c.devices|)
    ensures Read(c.store, vb) < |c.devices|
    ensures var d := c.devices[Read(c.store, vb)];
            var s := ExecuteSpecial(c, HWQ, size, vb).cpu.store;
            s.a + WordModulus * s.b == d.id && s.c == d.revision &&
            s.x + WordModulus * s.y == d.manufacturer
  {
  }

  /** HWN stores the number of attached devices. */
  lemma HwnCountsDevices(c: Cpu, size: Word, vb: Location)
    requires Valid(c) && !vb.Lit?
    ensures Read(ExecuteSpecial(c, HWN, size, vb).cpu.store, vb) == CountDevices(c)
  {
  }

  // ---------------------------------------------------------------------
  // Instruction length.

  /** No operand of the instruction is PICK, the one code whose next word
      `Sizeof` does not count. */
  predicate NoPick(ins: Instruction) {
    (ins.op == EXT || ins.a != 0x1a) && ins.b != 0x1a
  }

  lemma Add16Assoc(x: Word, m: int, n: int)
    ensures Add16(Add16(x, m), n) == Add16(x, m + n)
  {
  }

  /** Fetching and resolving an instruction advances PC by exactly its
      `Sizeof`, unless it has a PICK operand. */
  lemma {:induction false} PrepareAdvancesBySizeof(s: Storage)
    requires NoPick(Decode(s.mem[s.pc]))
    ensures Prepare(s).store.pc == Add16(s.pc, Prepare(s).size)
  {
    var ins := Decode(s.mem[s.pc]);
    var s1 := s.(pc := Add16(s.pc, 1));
    if ins.op != EXT {
      var da := DecodeOperand(s1, ins.a, true);
      DecodeAdvancesByExtraWords(s1, ins.a, true);
      DecodeAdvancesByExtraWords(da.store, ins.b, false);
      Add16Assoc(s.pc, 1, ExtraWords(ins.a));
      Add16Assoc(s.pc, 1 + ExtraWords(ins.a), ExtraWords(ins.b));
    } else {
      DecodeAdvancesByExtraWords(s1, ins.b, false);
      Add16Assoc(s.pc, 1, ExtraWords(ins.b));
    }
  }

  /** `skip` lands exactly where fetching and resolving the instruction
      leaves PC, for every instruction without a PICK operand. */
  lemma SkipLandsWhereFetchEnds(s: Storage)
    requires NoPick(Decode(s.mem[s.pc]))
    ensures NextPc(s.mem, s.pc) == Prepare(s).store.pc
  {
    PrepareAdvancesBySizeof(s);
  }

  /** An instruction with a PICK source takes two words, but `Sizeof`
      reports one: PC ends one word past what `Sizeof` accounts for. */
  lemma PickOutrunsSizeof(s: Storage)
    requires Decode(s.mem[s.pc]) == Instruction(SET, 0x00, 0x1a)
    ensures Prepare(s).size == 1
    ensures Prepare(s).store.pc == Add16(s.pc, 2)
  {
    var s1 := s.(pc := Add16(s.pc, 1));
    assert Sizeof(SET, 0x00, 0x1a) == 1;
    var da := DecodeOperand(s1, 0x00, true);
    assert da.store == s1;
    PickConsumesUncountedWord(s1, false);
    Add16Assoc(s.pc, 1, 1);
  }

  // ---------------------------------------------------------------------
  // Interrupts through a full step.

  const RfiA: Instruction := Instruction(EXT, RFI, 0x00)

  /** An interrupt handler that is a single `RFI A` returns to the
      interrupted program with every register restored. */
  lemma {:induction false} HandlerOfOneRfiReturns(c: Cpu, msg: Word)
    requires c.store.mem[c.store.ia] == Encode(RfiA)
    requires c.store.ia != c.store.sp && c.store.ia != Sub16(c.store.sp, 1)
    ensures Step(TriggerInterrupt(c, msg)).outcome == Continue
    ensures Step(TriggerInterrupt(c, msg)).cpu.store.(mem := c.store.mem) == c.store
    ensures !Step(TriggerInterrupt(c, msg)).cpu.queueing
  {
    var t := TriggerInterrupt(c, msg);
    assert t.store.mem[t.store.pc] == Encode(RfiA);
    DecodeEncode(RfiA);
    var p := Prepare(t.store);
    assert p.ins == RfiA;
    assert p.store == t.store.(pc := Add16(c.store.ia, 1));
    ReturnUndoesTrigger(c, msg);
    assert ReturnFromInterrupt(t.(store := p.store)) == ReturnFromInterrupt(t).(store := ReturnFromInterrupt(t).store.(pc := ReturnFromInterrupt(t).store.pc));
  }

  /** With queueing off and interrupts pending, a step enters the handler
      for the oldest one before executing anything. */
  lemma StepServicesOldestFirst(c: Cpu)
    requires !c.queueing && c.queue != []
    ensures ServiceQueue(c).store.a == c.queue[0]
    ensures ServiceQueue(c).store.pc == c.store.ia
    ensures ServiceQueue(c).queue == c.queue[1..]
    ensures ServiceQueue(c).queueing
    ensures Step(c).cpu.queue[..|c.queue| - 1] == c.queue[1..]
  {
  }

  /** With queueing on, a step takes nothing off the queue. */
  lemma StepKeepsQueueWhileQueueing(c: Cpu)
    requires c.queueing
    ensures c.queue <= Step(c).cpu.queue
  {
  }

  // ---------------------------------------------------------------------
  // The run loop.

  /** EXIT ends the run successfully. */
  lemma ExitIsSuccess(c: Cpu, ticks: nat, handler: (Word, Storage) -> Storage)
    requires ticks >= 1 && Step(c).outcome == Exit
    ensures RunFor(c, ticks, handler).1 == Finished
  {
  }

  /** The address a PANIC reports is PC minus its Sizeof after operand
      decoding: the instruction's own address when no PICK operand is
      involved, and one word past it with a PICK operand. */
  lemma PanicReportsAddress(c: Cpu)
    requires c.queueing || c.queue == []
    requires Decode(c.store.mem[c.store.pc]).op == EXT && Decode(c.store.mem[c.store.pc]).a == PANIC
    ensures Step(c).outcome.Panic?
    ensures Decode(c.store.mem[c.store.pc]).b != 0x1a ==> Step(c).outcome.pc == c.store.pc
    ensures Decode(c.store.mem[c.store.pc]).b == 0x1a ==> Step(c).outcome.pc == Add16(c.store.pc, 1)
  {
    var s := c.store;
    var p := Prepare(s);
    StepOfSpecial(c);
    assert Step(c).outcome == Panic(Sub16(p.store.pc, p.size), Read(p.store, p.vb));
    if Decode(s.mem[s.pc]).b != 0x1a {
      PrepareAdvancesBySizeof(s);
    } else {
      PrepareSpecialPick(s);
    }
  }

  /** With no interrupt to service, a special instruction's step is its
      execution on the prepared storage. */
  lemma StepOfSpecial(c: Cpu)
    requires c.queueing || c.queue == []
    requires Decode(c.store.mem[c.store.pc]).op == EXT
    ensures Step(c) == ExecuteSpecial(c.(store := Prepare(c.store).store), Prepare(c.store).ins.a,
                                      Prepare(c.store).size, Prepare(c.store).vb)
  {
    assert ServiceQueue(c) == c;
  }

  /** A special instruction with a PICK operand has Sizeof 1 and takes two
      words. */
  lemma PrepareSpecialPick(s: Storage)
    requires Decode(s.mem[s.pc]).op == EXT && Decode(s.mem[s.pc]).b == 0x1a
    ensures Prepare(s).size == 1
    ensures Prepare(s).store.pc == Add16(s.pc, 2)
  {
    var s1 := s.(pc := Add16(s.pc, 1));
    PickConsumesUncountedWord(s1, false);
    Add16Assoc(s.pc, 1, 1);
  }

  /** PANIC ends the run with an error carrying the address the step
      reported. */
  lemma PanicIsError(c: Cpu, ticks: nat, handler: (Word, Storage) -> Storage)
    requires ticks >= 1 && Step(c).outcome.Panic?
    ensures RunFor(c, ticks, handler).1 == Failed(Step(c).outcome)
  {
  }
}
