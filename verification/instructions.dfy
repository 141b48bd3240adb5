/**
 * Instruction words: opcode constants, field decoding and instruction length.
 *
 * An instruction word packs a 5-bit opcode in bits 0-4, a 5-bit field `a`
 * in bits 5-9 and a 6-bit field `b` in bits 10-15. For a basic opcode `a`
 * names the write target and `b` the source; for a special instruction
 * (opcode EXT) `a` holds the special opcode and `b` the single operand.
 */
module Instructions {
  import opened Words

  // Basic opcodes.
  const EXT: Word := 0x00
  const SET: Word := 0x01
  const ADD: Word := 0x02
  const SUB: Word := 0x03
  const MUL: Word := 0x04
  const MLI: Word := 0x05
  const DIV: Word := 0x06
  const DVI: Word := 0x07
  const MOD: Word := 0x08
  const MDI: Word := 0x09
  const AND: Word := 0x0a
  const BOR: Word := 0x0b
  const XOR: Word := 0x0c
  const SHR: Word := 0x0d
  const ASR: Word := 0x0e
  const SHL: Word := 0x0f
  const IFB: Word := 0x10
  const IFC: Word := 0x11
  const IFE: Word := 0x12
  const IFN: Word := 0x13
  const IFG: Word := 0x14
  const IFA: Word := 0x15
  const IFL: Word := 0x16
  const IFU: Word := 0x17
  const ADX: Word := 0x1a
  const SBX: Word := 0x1b
  const STI: Word := 0x1e
  const STD: Word := 0x1f

  // Special opcodes, held in field `a` when the opcode is EXT.
  const JSR: Word := 0x01
  const INT: Word := 0x08
  const IAG: Word := 0x09
  const IAS: Word := 0x0a
  const RFI: Word := 0x0b
  const IAQ: Word := 0x0c
  const HWN: Word := 0x10
  const HWQ: Word := 0x11
  const HWI: Word := 0x12
  // The emulator's test extensions.
  const PANIC: Word := 0x13
  const EXIT: Word := 0x14

  /** Capacity of the interrupt queue. */
  const MaxIntQueue: nat := 256

  datatype Instruction = Instruction(op: Word, a: Word, b: Word)

  predicate WellFormed(ins: Instruction) {
    ins.op < 0x20 && ins.a < 0x20 && ins.b < 0x40
  }

  function Encode(ins: Instruction): Word
    requires WellFormed(ins)
  {
    ins.op + 0x20 * ins.a + 0x400 * ins.b
  }

  /** Splits an instruction word into its opcode and operand fields. */
  function Decode(w: Word): (ins: Instruction)
    ensures WellFormed(ins)
    ensures Encode(ins) == w
  {
    Instruction(w % 0x20, (w / 0x20) % 0x20, w / 0x400)
  }

  lemma DecodeEncode(ins: Instruction)
    requires WellFormed(ins)
    ensures Decode(Encode(ins)) == ins
  {
    EncodeInjective(Decode(Encode(ins)), ins);
  }

  /** Distinct well-formed instructions have distinct encodings. */
  lemma EncodeInjective(x: Instruction, y: Instruction)
    requires WellFormed(x) && WellFormed(y) && Encode(x) == Encode(y)
    ensures x == y
  {
    // the low ten bits differ by less than 0x400, so the top fields agree
    var lx, ly := x.op + 0x20 * x.a, y.op + 0x20 * y.a;
    assert 0x400 * (x.b - y.b) == ly - lx && -0x400 < ly - lx < 0x400;
    assert x.b == y.b;
    assert 0x20 * (x.a - y.a) == y.op - x.op && -0x20 < y.op - x.op < 0x20;
  }

  /** The conditional opcodes IFB..IFU. */
  predicate IsBranch(op: Word) {
    IFB <= op <= IFU
  }

  /** Operand codes for which `Sizeof` counts a "next word":
      [next word + register], [next word] and next word (literal). */
  predicate CountsNextWord(w: Word) {
    w == 0x1e || w == 0x1f || (0x10 <= w && w <= 0x17)
  }

  /** The number of extra words `Sizeof` charges for one operand code. */
  function ExtraWords(w: Word): nat {
    if CountsNextWord(w) then 1 else 0
  }

  /** The number of words occupied by an instruction with the given fields.
      Field `a` of a special instruction is an opcode and takes no word. */
  function Sizeof(op: Word, a: Word, b: Word): (count: Word)
    ensures 1 <= count <= 3
    ensures count == 1 + (if op != EXT then ExtraWords(a) else 0) + ExtraWords(b)
  {
    var count := 1;
    var count := if op != EXT && (a == 0x1e || a == 0x1f || (a >= 0x10 && a <= 0x17)) then count + 1 else count;
    var count := if b == 0x1e || b == 0x1f || (b >= 0x10 && b <= 0x17) then count + 1 else count;
    count
  }
}
