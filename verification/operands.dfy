/**
 * Registers, memory, and operand decoding.
 *
 * The emulator resolves each operand to a `*Word` pointing into its
 * storage (a register or a memory cell) or at a private copy (a literal).
 * Here that pointer is a `Location`, and `Read`/`Write` interpret it
 * against an immutable `Storage` value.
 */
module Operands {
  import opened Words
  import opened Instructions

  /** 64K words of memory; every word value is a valid address. */
  type Memory = m: seq<Word> | |m| == WordModulus witness seq(WordModulus, _ => 0)

  datatype Register = A | B | C | X | Y | Z | I | J | SP | PC | EX

  /** The machine's registers and memory (Go's `Storage`). */
  datatype Storage = Storage(
    a: Word, b: Word, c: Word, x: Word, y: Word, z: Word, i: Word, j: Word,
    sp: Word, pc: Word, ex: Word, ia: Word,
    mem: Memory)

  /** What an operand denotes: a register, a memory cell, or a literal value
      held outside the storage (writes to it are lost). */
  datatype Location = Reg(r: Register) | Mem(addr: Word) | Lit(v: Word)

  /** Register or cell storage after decoding, and the operand's location. */
  datatype Decoded = Decoded(store: Storage, loc: Location)

  /** All registers and all memory zero. */
  function Cleared(): (s: Storage)
    ensures forall r :: Get(s, r) == 0
    ensures s.ia == 0
    ensures forall addr: Word :: s.mem[addr] == 0
  {
    Storage(0, 0, 0, 0, 0, 0, 0, 0, 0, 0, 0, 0, seq(WordModulus, _ => 0))
  }

  /** The register selected by operand codes 0x0-0x7 (and 0x8-0xf, 0x10-0x17
      modulo 8). */
  function General(n: nat): (r: Register)
    requires n < 8
    ensures r != SP && r != PC && r != EX
  {
    [A, B, C, X, Y, Z, I, J][n]
  }

  function Get(s: Storage, r: Register): Word {
    match r
    case A => s.a
    case B => s.b
    case C => s.c
    case X => s.x
    case Y => s.y
    case Z => s.z
    case I => s.i
    case J => s.j
    case SP => s.sp
    case PC => s.pc
    case EX => s.ex
  }

  function Set(s: Storage, r: Register, v: Word): (t: Storage)
    ensures Get(t, r) == v
    ensures forall q :: q != r ==> Get(t, q) == Get(s, q)
    ensures t.mem == s.mem && t.ia == s.ia
  {
    match r
    case A => s.(a := v)
    case B => s.(b := v)
    case C => s.(c := v)
    case X => s.(x := v)
    case Y => s.(y := v)
    case Z => s.(z := v)
    case I => s.(i := v)
    case J => s.(j := v)
    case SP => s.(sp := v)
    case PC => s.(pc := v)
    case EX => s.(ex := v)
  }

  function Read(s: Storage, l: Location): Word {
    match l
    case Reg(r) => Get(s, r)
    case Mem(addr) => s.mem[addr]
    case Lit(v) => v
  }

  /** Stores `v` at `l`. A literal is a private copy: storing to it changes
      nothing in the machine. */
  function Write(s: Storage, l: Location, v: Word): (t: Storage)
    ensures l.Lit? ==> t == s
    ensures !l.Lit? ==> Read(t, l) == v
    ensures t.ia == s.ia
    ensures l.Reg? ==> t.mem == s.mem
    ensures l.Mem? ==> t == s.(mem := t.mem) && |t.mem| == |s.mem|
  {
    match l
    case Reg(r) => Set(s, r, v)
    case Mem(addr) => s.(mem := s.mem[addr := v])
    case Lit(_) => s
  }

  /** Reading a location after a write sees the written value exactly when
      it is the location written to, and the old value otherwise. */
  lemma ReadOverWrite(s: Storage, written: Location, read: Location, v: Word)
    ensures Read(Write(s, written, v), read) ==
            if written == read && !written.Lit? then v else Read(s, read)
  {
  }

  /** Resolves operand code `w`. `isTarget` selects PUSH (the write target)
      or POP for code 0x18. Codes that take a "next word" read it at PC and
      advance PC; PUSH and POP move SP. */
  function DecodeOperand(s: Storage, w: Word, isTarget: bool): (d: Decoded)
    ensures d.store.mem == s.mem
    ensures d.store == s.(pc := d.store.pc, sp := d.store.sp)
    ensures w != 0x18 ==> d.store.sp == s.sp
    ensures 0x20 <= w <= 0x3f ==> d.store == s && d.loc == Lit(Wrap16(w - 0x21))
    ensures w <= 0x3f ==> (d.loc.Lit? <==> w >= 0x20)
    ensures w == 0x18 && isTarget ==> d.loc == Mem(s.sp) && d.store.sp == Sub16(s.sp, 1)
    ensures w == 0x18 && !isTarget ==> d.loc == Mem(d.store.sp) && d.store.sp == Add16(s.sp, 1)
    ensures w == 0x19 ==> d == Decoded(s, Mem(s.sp))
    ensures w == 0x1a ==> d == Decoded(s.(pc := Add16(s.pc, 1)), Mem(Add16(s.mem[s.pc], s.sp)))
    ensures w == 0x1f ==> d == Decoded(s.(pc := Add16(s.pc, 1)), Mem(s.pc))
  {
    if 0x20 <= w <= 0x3f then
      // small literals: 0x20 stands for 0xffff (-1), 0x3f for 30
      Decoded(s, Lit(Wrap16(w - 0x21)))
    else if w <= 0x07 then
      Decoded(s, Reg(General(w)))
    else if w <= 0x0f then
      Decoded(s, Mem(Get(s, General(w - 0x08))))
    else if w <= 0x17 then
      // memory at a general register plus the following word
      var addr := Add16(s.mem[s.pc], Get(s, General(w - 0x10)));
      Decoded(s.(pc := Add16(s.pc, 1)), Mem(addr))
    else if w == 0x18 then
      if isTarget then
        // PUSH: SP is decremented first and the cell at SP+1 is returned.
        var sp := Sub16(s.sp, 1);
        Decoded(s.(sp := sp), Mem(Add16(sp, 1)))
      else
        // POP: SP is incremented first and the cell at the new SP is returned.
        var sp := Add16(s.sp, 1);
        Decoded(s.(sp := sp), Mem(sp))
    else if w == 0x19 then
      // the cell at the top of the stack
      Decoded(s, Mem(s.sp))
    else if w == 0x1a then
      // the cell n below the top of the stack, n read from the following word
      var addr := Add16(s.mem[s.pc], s.sp);
      Decoded(s.(pc := Add16(s.pc, 1)), Mem(addr))
    else if w == 0x1b then
      Decoded(s, Reg(SP))
    else if w == 0x1c then
      Decoded(s, Reg(PC))
    else if w == 0x1d then
      Decoded(s, Reg(EX))
    else if w == 0x1e then
      // memory at the address held in the following word
      Decoded(s.(pc := Add16(s.pc, 1)), Mem(s.mem[s.pc]))
    else if w == 0x1f then
      // the following word as a value: the emulator hands out the cell
      // itself, so a write lands in memory
      var pc := Add16(s.pc, 1);
      Decoded(s.(pc := pc), Mem(Sub16(pc, 1)))
    else
      // codes above 0x3f cannot come out of an instruction word
      Decoded(s, Lit(w))
  }

  /** Every operand code except PICK (0x1a) advances PC by exactly the number
      of extra words `Sizeof` charges for it. */
  lemma DecodeAdvancesByExtraWords(s: Storage, w: Word, isTarget: bool)
    requires w <= 0x3f && w != 0x1a
    ensures DecodeOperand(s, w, isTarget).store.pc == Add16(s.pc, ExtraWords(w))
  {
  }

  /** PICK consumes a next word that `Sizeof` does not count. */
  lemma PickConsumesUncountedWord(s: Storage, isTarget: bool)
    ensures ExtraWords(0x1a) == 0
    ensures DecodeOperand(s, 0x1a, isTarget).store.pc == Add16(s.pc, 1)
    ensures DecodeOperand(s, 0x1a, isTarget).store.pc != s.pc
  {
  }

  /** Writing through a literal operand leaves every register and all of
      memory unchanged. */
  lemma LiteralTargetIsInert(s: Storage, w: Word, v: Word)
    requires 0x20 <= w <= 0x3f
    ensures DecodeOperand(s, w, true).loc == Lit(Wrap16(w - 0x21))
    ensures Write(DecodeOperand(s, w, true).store, DecodeOperand(s, w, true).loc, v) == s
  {
  }

  /** The emulator's PUSH stores at SP and then lowers SP, so a PEEK right
      after a PUSH resolves to the cell below the pushed one. */
  lemma PeekAfterPushMissesIt(s: Storage)
    ensures DecodeOperand(DecodeOperand(s, 0x18, true).store, 0x19, false).loc == Mem(Sub16(s.sp, 1))
    ensures DecodeOperand(s, 0x18, true).loc == Mem(s.sp)
    ensures Sub16(s.sp, 1) != s.sp
  {
  }
}
