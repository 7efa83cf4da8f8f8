/** The jump-and-link immediate of riscv_virtualizer.c against the J-type encoding of
    section 2.3 of the RISC-V Instruction Set Manual, Volume I. */
module Jal {

  /** J-type: imm[20] imm[10:1] imm[11] imm[19:12] rd opcode, from the top bit down. */
  function Encode(offset: bv64, rd: bv64): bv64
    requires rd < 32
  {
    (((offset >> 20) & 1) << 31) | (((offset >> 1) & 0x3FF) << 21) | (((offset >> 11) & 1) << 20)
    | (((offset >> 12) & 0xFF) << 12) | (rd << 7) | 0x6F
  }

  /** The 20-bit field `imm` of a U- or J-type instruction word. */
  function ImmField(word: bv64): bv64 {
    (word >> 12) & 0xFFFFF
  }

  function RdField(word: bv64): bv64 {
    (word >> 7) & 31
  }

  /** The handler's reassembly of the scattered field into half the offset. */
  function Half(imm: bv64): bv64 {
    var mask: bv64 := 0xFFFFF;
    (((imm >> 19) & 1) << 19) | ((mask & (imm << 12)) >> 1) | (((imm >> 8) & 1) << 10) | ((mask & (imm << 1)) >> 10)
  }

  /** The sign-extended half offset. */
  function Immediate(imm: bv64): bv64 {
    Extend(Half(imm))
  }

  function Extend(half: bv64): bv64 {
    if half & 0x80000 != 0 then half | 0xF00000 | 0xFFFFFFFFFF000000 else half
  }

  /** The handler's local `offset` for an instruction word. */
  function Offset(word: bv64): bv64 {
    Immediate(ImmField(word)) << 1
  }

  /** What the handler does: which register gets the link, its value, and where it jumps. */
  datatype Jump = Jump(rd: bv64, link: bv64, target: bv64)

  /** `pc` is the handler's argument, already advanced past the instruction. */
  function Target(pc: bv64, offset: bv64): bv64 {
    pc - 4 + offset
  }

  function Handler(word: bv64, pc: bv64): Jump {
    Jump(RdField(word), pc, Target(pc, Offset(word)))
  }

  /** An even offset in [-2^20, 2^20), as a 64-bit two's complement number: bits 63 to 20 all equal. */
  predicate Reachable(offset: bv64) {
    offset & 0xFFFFFFFFFFF00001 == 0 || offset & 0xFFFFFFFFFFF00001 == 0xFFFFFFFFFFF00000
  }

  lemma ReachableIsRange(offset: bv64)
    ensures Reachable(offset) <==> offset & 1 == 0 && offset + 0x10_0000 < 0x20_0000
  {
  }

  /** The field alone: imm[20] imm[10:1] imm[11] imm[19:12]. */
  function Pack(offset: bv64): bv64 {
    (((offset >> 20) & 1) << 19) | (((offset >> 1) & 0x3FF) << 9) | (((offset >> 11) & 1) << 8)
    | ((offset >> 12) & 0xFF)
  }

  lemma EncodeFields(offset: bv64, rd: bv64)
    requires rd < 32
    ensures ImmField(Encode(offset, rd)) == Pack(offset)
    ensures RdField(Encode(offset, rd)) == rd
  {
  }

  lemma HalfOfPack(offset: bv64)
    ensures Half(Pack(offset)) == (offset >> 1) & 0xFFFFF
  {
  }

  lemma SignExtends(offset: bv64)
    requires Reachable(offset)
    ensures Immediate(Pack(offset)) << 1 == offset
  {
    HalfOfPack(offset);
    if offset & 0xFFFFFFFFFFF00001 == 0 {
      ExtendsForward(offset);
    } else {
      ExtendsBackward(offset);
    }
  }

  lemma ExtendsForward(offset: bv64)
    requires offset & 0xFFFFFFFFFFF00001 == 0
    ensures ((offset >> 1) & 0xFFFFF) & 0x80000 == 0
    ensures ((offset >> 1) & 0xFFFFF) << 1 == offset
  {
  }

  lemma ExtendsBackward(offset: bv64)
    requires offset & 0xFFFFFFFFFFF00001 == 0xFFFFFFFFFFF00000
    ensures ((offset >> 1) & 0xFFFFF) & 0x80000 != 0
    ensures (((offset >> 1) & 0xFFFFF) | 0xF00000 | 0xFFFFFFFFFF000000) << 1 == offset
  {
  }

  /** Executing, at any pc, the encoding of any reachable offset puts pc + 4 into the encoded register and
      jumps to pc plus the offset, modulo 2^64. */
  lemma JalRoundTrip(pc: bv64, offset: bv64, rd: bv64)
    requires Reachable(offset) && rd < 32
    ensures Handler(Encode(offset, rd), pc + 4) == Jump(rd, pc + 4, pc + offset)
  {
    OffsetRoundTrip(offset, rd);
    EncodeFields(offset, rd);
    TargetIs(pc, offset);
  }

  lemma OffsetRoundTrip(offset: bv64, rd: bv64)
    requires Reachable(offset) && rd < 32
    ensures Offset(Encode(offset, rd)) == offset
  {
    EncodeFields(offset, rd);
    SignExtends(offset);
  }

  lemma TargetIs(pc: bv64, offset: bv64)
    ensures Target(pc + 4, offset) == pc + offset
  {
  }

  lemma ForwardFields(imm: bv64, rd: bv64)
    requires imm & 0xFFFFFFFFFFF80000 == 0 && rd < 32
    ensures ImmField(Encode(Immediate(imm) << 1, rd)) == imm
  {
  }

  lemma BackwardFields(imm: bv64, rd: bv64)
    requires imm & 0xFFFFFFFFFFF80000 == 0x80000 && rd < 32
    ensures ImmField(Encode(Immediate(imm) << 1, rd)) == imm
  {
  }

  lemma FieldReaches(imm: bv64)
    requires imm & 0xFFFFFFFFFFF00000 == 0
    ensures Reachable(Immediate(imm) << 1)
  {
  }

  lemma SignBit(imm: bv64)
    requires imm & 0xFFFFFFFFFFF00000 == 0
    ensures imm & 0xFFFFFFFFFFF80000 == 0 || imm & 0xFFFFFFFFFFF80000 == 0x80000
  {
  }

  /** And every immediate field decodes to a reachable offset that encodes back to it. */
  lemma JalFieldsCovered(imm: bv64, rd: bv64)
    requires imm & 0xFFFFFFFFFFF00000 == 0 && rd < 32
    ensures Reachable(Immediate(imm) << 1) && ImmField(Encode(Immediate(imm) << 1, rd)) == imm
  {
    FieldReaches(imm);
    SignBit(imm);
    if imm & 0xFFFFFFFFFFF80000 == 0 {
      ForwardFields(imm, rd);
    } else {
      BackwardFields(imm, rd);
    }
  }
}
