/** The instruction formats of section 2.2 of the RISC-V Instruction Set Manual, Volume I, written as an assembler
    writes them, and what decode and the handlers find in the words. */
module Encodings {
  import opened Words
  import opened Pipeline
  import opened RiscvHandlers

  // ---------------------------------------------------------------- the formats

  /** A word from the bits of its fields, 7, 5, 5, 3, 5 and 7 of them from the top. */
  function Packed(top: nat, second: nat, first: nat, funct3: nat, low: nat, opcode: nat): nat {
    top * 0x200_0000 + second * 0x10_0000 + first * 0x8000 + funct3 * 0x1000 + low * 0x80 + opcode
  }

  function RType(funct7: nat, rs2: nat, rs1: nat, funct3: nat, rd: nat, opcode: nat): nat {
    Packed(funct7, rs2, rs1, funct3, rd, opcode)
  }

  /** imm[11:0] rs1 funct3 rd opcode. */
  function IType(imm: int, rs1: nat, funct3: nat, rd: nat, opcode: nat): nat {
    imm % 0x1000 * 0x10_0000 + rs1 * 0x8000 + funct3 * 0x1000 + rd * 0x80 + opcode
  }

  /** imm[11:5] rs2 rs1 funct3 imm[4:0] opcode. */
  function SType(imm: int, rs2: nat, rs1: nat, funct3: nat, opcode: nat): nat {
    var u := imm % 0x1000;
    Packed(u / 32, rs2, rs1, funct3, u % 32, opcode)
  }

  /** imm[12] imm[10:5] rs2 rs1 funct3 imm[4:1] imm[11] opcode. */
  function BType(imm: int, rs2: nat, rs1: nat, funct3: nat, opcode: nat): nat {
    var u := imm % 0x2000;
    Packed(u / 0x1000 * 64 + u / 32 % 64, rs2, rs1, funct3, u / 2 % 16 * 2 + u / 0x800 % 2, opcode)
  }

  /** imm[31:12] rd opcode. */
  function UType(field: nat, rd: nat, opcode: nat): nat {
    field * 0x1000 + rd * 0x80 + opcode
  }

  /** imm[20] imm[10:1] imm[11] imm[19:12] rd opcode. */
  function JType(imm: int, rd: nat, opcode: nat): nat {
    var u := imm % 0x20_0000;
    UType(u / 0x10_0000 * 0x8_0000 + u / 2 % 0x400 * 0x200 + u / 0x800 % 2 * 0x100 + u / 0x1000 % 0x100, rd, opcode)
  }

  // ---------------------------------------------------------------- decode

  lemma PackedFields(top: nat, second: nat, first: nat, funct3: nat, low: nat, opcode: nat)
    requires top < 128 && second < 32 && first < 32 && funct3 < 8 && low < 32 && opcode < 128
    ensures var i := Packed(top, second, first, funct3, low, opcode);
      && i % 128 == opcode && i / 128 % 32 == low && i / 0x1000 % 8 == funct3 && i / 0x8000 % 32 == first
      && i / 0x10_0000 % 32 == second && i / 0x200_0000 == top && i / 0x10_0000 == top * 32 + second
  {
    var i := Packed(top, second, first, funct3, low, opcode);
    var second' := top * 32 + second;
    var first' := second' * 32 + first;
    var funct3' := first' * 8 + funct3;
    var low' := funct3' * 32 + low;
    DivModUnique(i, 128, low', opcode);
    DivModUnique(i, 0x1000, funct3', low * 128 + opcode);
    DivModUnique(i, 0x8000, first', funct3 * 0x1000 + low * 128 + opcode);
    DivModUnique(i, 0x10_0000, second', first * 0x8000 + funct3 * 0x1000 + low * 128 + opcode);
    DivModUnique(i, 0x200_0000, top, second * 0x10_0000 + first * 0x8000 + funct3 * 0x1000 + low * 128 + opcode);
    DivModUnique(low', 32, funct3', low);
    DivModUnique(funct3', 8, first', funct3);
    DivModUnique(first', 32, second', first);
    DivModUnique(second', 32, top, second);
  }

  lemma DecodesR(funct7: nat, rs2: nat, rs1: nat, funct3: nat, rd: nat, opcode: nat)
    requires funct7 < 128 && rs2 < 32 && rs1 < 32 && funct3 < 8 && rd < 32 && opcode in {0x33, 0x3B}
    ensures DecodeRegs(RType(funct7, rs2, rs1, funct3, rd, opcode)) == Regs(rs1, rs2, rd)
  {
    PackedFields(funct7, rs2, rs1, funct3, rd, opcode);
  }

  lemma ITypeFields(imm: int, rs1: nat, funct3: nat, rd: nat, opcode: nat)
    requires rs1 < 32 && funct3 < 8 && rd < 32 && opcode < 128
    ensures var i := IType(imm, rs1, funct3, rd, opcode);
      && i % 128 == opcode && i / 128 % 32 == rd && i / 0x1000 % 8 == funct3 && i / 0x8000 % 32 == rs1
      && i / 0x10_0000 == imm % 0x1000
  {
    var u := imm % 0x1000;
    PackedFields(u / 32, u % 32, rs1, funct3, rd, opcode);
  }

  /** Every opcode that is not of another format is decoded as this one. */
  lemma DecodesI(imm: int, rs1: nat, funct3: nat, rd: nat, opcode: nat)
    requires rs1 < 32 && funct3 < 8 && rd < 32
    requires opcode < 128 && opcode !in {0x33, 0x3B, 0x23, 0x63, 0x17, 0x37, 0x6F}
    ensures DecodeRegs(IType(imm, rs1, funct3, rd, opcode)) == Regs(rs1, -1, rd)
  {
    ITypeFields(imm, rs1, funct3, rd, opcode);
  }

  lemma DecodesS(imm: int, rs2: nat, rs1: nat, funct3: nat)
    requires rs2 < 32 && rs1 < 32 && funct3 < 8
    ensures DecodeRegs(SType(imm, rs2, rs1, funct3, 0x23)) == Regs(rs1, rs2, -1)
  {
    var u := imm % 0x1000;
    PackedFields(u / 32, rs2, rs1, funct3, u % 32, 0x23);
  }

  lemma DecodesB(imm: int, rs2: nat, rs1: nat, funct3: nat)
    requires rs2 < 32 && rs1 < 32 && funct3 < 8
    ensures DecodeRegs(BType(imm, rs2, rs1, funct3, 0x63)) == Regs(rs1, rs2, -1)
  {
    var u := imm % 0x2000;
    PackedFields(u / 0x1000 * 64 + u / 32 % 64, rs2, rs1, funct3, u / 2 % 16 * 2 + u / 0x800 % 2, 0x63);
  }

  lemma DecodesU(field: nat, rd: nat, opcode: nat)
    requires rd < 32 && opcode in {0x17, 0x37, 0x6F}
    ensures DecodeRegs(UType(field, rd, opcode)) == Regs(-1, -1, rd)
  {
    var i := UType(field, rd, opcode);
    DivModUnique(i, 128, field * 32 + rd, opcode);
    DivModUnique(field * 32 + rd, 32, field, rd);
  }

  lemma DecodesJ(imm: int, rd: nat)
    requires rd < 32
    ensures DecodeRegs(JType(imm, rd, 0x6F)) == Regs(-1, -1, rd)
  {
    var u := imm % 0x20_0000;
    DecodesU(u / 0x10_0000 * 0x8_0000 + u / 2 % 0x400 * 0x200 + u / 0x800 % 2 * 0x100 + u / 0x1000 % 0x100, rd, 0x6F);
  }

  // ---------------------------------------------------------------- the handlers

  predicate Fits12(imm: int) {
    -0x800 <= imm < 0x800
  }

  /** A register plus a signed immediate, modulo 2^64. */
  lemma SignedSum(v: nat, imm: int, k: nat)
    requires Fits12(imm) && k % 0x1000 == imm % 0x1000
    ensures (v + SignExtended12(k)) % TWO64 == (v + imm) % TWO64
  {
    if imm < 0 {
      assert SignExtended12(k) == imm + TWO64;
    } else {
      assert SignExtended12(k) == imm;
    }
  }

  lemma STypeImmediate(i: nat, u: nat)
    requires u < 0x1000 && i / 0x200_0000 == u / 32 && i / 128 % 32 == u % 32
    ensures ImmS(i) == SignExtended12(u)
  {
  }

  lemma STypeFields(imm: int, rs2: nat, rs1: nat, funct3: nat)
    requires rs2 < 32 && rs1 < 32 && funct3 < 8
    ensures var i := SType(imm, rs2, rs1, funct3, 0x23);
      i % 128 == 0x23 && Funct3(i) == funct3 && ImmS(i) == SignExtended12(imm % 0x1000)
  {
    var u := imm % 0x1000;
    PackedFields(u / 32, rs2, rs1, funct3, u % 32, 0x23);
    STypeImmediate(SType(imm, rs2, rs1, funct3, 0x23), u);
  }

  lemma LoadEffect(i: nat, imm: int, v1: Word, v2: Word)
    requires Fits12(imm) && i % 128 == 0x03 && Funct3(i) < 7 && i / 0x10_0000 == imm % 0x1000
    ensures EffectOf(Machine64(), i, v1, v2)
      == LoadMem(i / 128 % 32, (U64(v1) + imm) % TWO64, [1, 2, 4, 8, 1, 2, 4][Funct3(i)], Funct3(i) < 3)
  {
    SignedSum(U64(v1), imm, i / 0x10_0000);
  }

  lemma StoreEffect(i: nat, imm: int, v1: Word, v2: Word)
    requires Fits12(imm) && i % 128 == 0x23 && Funct3(i) < 4 && ImmS(i) == SignExtended12(imm % 0x1000)
    ensures var size := [1, 2, 4, 8][Funct3(i)];
      EffectOf(Machine64(), i, v1, v2) == StoreMem((U64(v1) + imm) % TWO64, size, v2[..size] + Zeros(8 - size))
  {
    SignedSum(U64(v1), imm, imm % 0x1000);
  }

  lemma AddiEffect(i: nat, imm: int, v1: Word, v2: Word)
    requires Fits12(imm) && i % 128 == 0x13 && Funct3(i) == 0 && i / 0x10_0000 == imm % 0x1000
    ensures EffectOf(Machine64(), i, v1, v2) == WriteReg(i / 128 % 32, FromU64((U64(v1) + imm) % TWO64))
  {
    SignedSum(U64(v1), imm, i / 0x10_0000);
  }

  /** lb, lh, lw, ld, lbu, lhu and lwu: the address, the size and the extension, from the assembler's operands. */
  lemma LoadEncoded(imm: int, rs1: nat, funct3: nat, rd: nat, v1: Word, v2: Word)
    requires Fits12(imm) && rs1 < 32 && funct3 < 7 && rd < 32
    ensures EffectOf(Machine64(), IType(imm, rs1, funct3, rd, 0x03), v1, v2)
      == LoadMem(rd, (U64(v1) + imm) % TWO64, [1, 2, 4, 8, 1, 2, 4][funct3], funct3 < 3)
  {
    ITypeFields(imm, rs1, funct3, rd, 0x03);
    LoadEffect(IType(imm, rs1, funct3, rd, 0x03), imm, v1, v2);
  }

  /** sb, sh, sw and sd. */
  lemma StoreEncoded(imm: int, rs2: nat, rs1: nat, funct3: nat, v1: Word, v2: Word)
    requires Fits12(imm) && rs2 < 32 && rs1 < 32 && funct3 < 4
    ensures var size := [1, 2, 4, 8][funct3];
      EffectOf(Machine64(), SType(imm, rs2, rs1, funct3, 0x23), v1, v2)
      == StoreMem((U64(v1) + imm) % TWO64, size, v2[..size] + Zeros(8 - size))
  {
    STypeFields(imm, rs2, rs1, funct3);
    StoreEffect(SType(imm, rs2, rs1, funct3, 0x23), imm, v1, v2);
  }

  /** addi. */
  lemma AddiEncoded(imm: int, rs1: nat, rd: nat, v1: Word, v2: Word)
    requires Fits12(imm) && rs1 < 32 && rd < 32
    ensures EffectOf(Machine64(), IType(imm, rs1, 0, rd, 0x13), v1, v2)
      == WriteReg(rd, FromU64((U64(v1) + imm) % TWO64))
  {
    ITypeFields(imm, rs1, 0, rd, 0x13);
    AddiEffect(IType(imm, rs1, 0, rd, 0x13), imm, v1, v2);
  }
}
