/** The loads, stores and the immediate addition of riscv_virtualizer.c, and what running them twice does. */
module RiscvHandlers {
  import opened Words
  import opened Pipeline
  import opened PipelineProofs
  import opened PipelineStalls
  import Predictor

  // ---------------------------------------------------------------- 64-bit arithmetic on words

  /** The number little-endian bytes stand for, and back. */
  function Value(bytes: seq<byte>): nat {
    if bytes == [] then 0 else bytes[0] + 256 * Value(bytes[1..])
  }

  function Digits(n: nat, count: nat): (r: seq<byte>)
    ensures |r| == count
  {
    if count == 0 then [] else [n % 256] + Digits(n / 256, count - 1)
  }

  lemma {:induction false} ValueOfDigits(n: nat, count: nat)
    requires n < Pow2(8 * count)
    ensures Value(Digits(n, count)) == n
    decreases count
  {
    if count > 0 {
      assert Pow2(8 * count) == 256 * Pow2(8 * (count - 1)) by {
        Pow2Adds(8, 8 * (count - 1));
        assert Pow2(8) == 256;
      }
      ValueOfDigits(n / 256, count - 1);
      assert Digits(n, count)[1..] == Digits(n / 256, count - 1);
    }
  }

  function U64(w: Word): nat {
    Value(w)
  }

  function FromU64(n: nat): Word {
    Digits(n, 8)
  }

  lemma FromU64Is(n: nat)
    requires n < TWO64
    ensures U64(FromU64(n)) == n
  {
    Pow2Of64();
    ValueOfDigits(n, 8);
  }

  /** A register plus a constant, as a value and as an address, modulo 2^64. */
  function Plus(w: Word, k: nat): Word {
    FromU64((U64(w) + k) % TWO64)
  }

  function At(w: Word, k: nat): nat {
    (U64(w) + k) % TWO64
  }

  // ---------------------------------------------------------------- handlers

  function Funct3(i: nat): nat {
    i / 0x1000 % 8
  }

  function SignExtended12(k: nat): nat {
    if k % 0x1000 >= 0x800 then TWO64 - 0x1000 + k % 0x1000 else k % 0x1000
  }

  function ImmI(i: nat): nat {
    SignExtended12(i / 0x10_0000)
  }

  function ImmS(i: nat): nat {
    SignExtended12(i / 0x200_0000 % 128 * 32 + i / 128 % 32)
  }

  predicate IsLoad(i: nat) {
    i % 128 == 0x03 && Funct3(i) != 7
  }

  predicate IsStore(i: nat) {
    i % 128 == 0x23 && Funct3(i) <= 3
  }

  predicate IsAddi(i: nat) {
    i % 128 == 0x13 && Funct3(i) == 0
  }

  /** By funct3: 1, 2, 4 or 8 bytes; loads are signed below 3. */
  function SizeOf(i: nat): nat {
    var f := Funct3(i) % 4;
    if f == 0 then 1 else if f == 1 then 2 else if f == 2 then 4 else 8
  }

  /** The arithmetic the handlers use. */
  datatype Adder = Adder(plus: (Word, nat) -> Word, at: (Word, nat) -> nat)

  function Machine64(): Adder {
    Adder(Plus, At)
  }

  function EffectOf(f: Adder, i: nat, v1: Word, v2: Word): Effect {
    if IsLoad(i) then LoadMem(i / 128 % 32, f.at(v1, ImmI(i)), SizeOf(i), Funct3(i) < 3)
    else if IsStore(i) then StoreMem(f.at(v1, ImmS(i)), SizeOf(i), v2[..SizeOf(i)] + Zeros(8 - SizeOf(i)))
    else if IsAddi(i) then WriteReg(i / 128 % 32, f.plus(v1, ImmI(i)))
    else NoEffect
  }

  function Exec(f: Adder): Handlers {
    (i: nat, pc: nat, v1: Word, v2: Word) => Executed(Predictor.NextPc(pc), EffectOf(f, i, v1, v2))
  }

  /** A flat memory of bytes; what lies outside it reads as zero and cannot be stored to. */
  function FlatLoad(m: seq<byte>, x: nat): Word {
    Overlay(ZERO, if x + 8 <= |m| then m[x..x + 8] else if x <= |m| then m[x..] else [])
  }

  function FlatStore(m: seq<byte>, x: nat, n: nat, v: Word): seq<byte> {
    if n <= 8 && x + n <= |m| then Splice(m, x, v[..n]) else m
  }

  function FlatWorld(f: Adder, code: nat -> nat): World<seq<byte>> {
    World(Exec(f), code, FlatLoad, FlatStore)
  }

  lemma FlatWorldOk(f: Adder, code: nat -> nat)
    ensures HandlersOk(FlatWorld(f, code)) && StoresSettle(FlatWorld(f, code))
  {
    forall i, pc, v1, v2 ensures EffectOk(i, FlatWorld(f, code).exec(i, pc, v1, v2).effect) {
      var q := DecodeRegs(i);
    }
    forall m: seq<byte>, a: nat, n: nat, v: Word ensures FlatStore(FlatStore(m, a, n, v), a, n, v)
        == FlatStore(m, a, n, v) {
    }
    forall m: seq<byte>, a: nat, n: nat, v: Word, a': nat, n': nat, v': Word
      ensures FlatStore(FlatStore(FlatStore(m, a, n, v), a', n', v'), a, n, v)
          == FlatStore(FlatStore(m, a', n', v'), a, n, v)
    {
    }
  }

  function ZeroFile(): (r: seq<Word>)
    ensures |r| == 32 && forall k :: 0 <= k < 32 ==> r[k] == ZERO
  {
    seq(32, _ => ZERO)
  }

  // ---------------------------------------------------------------- loads that overwrite their address

  /** A small word other than `w`. */
  function Other(w: Word): Word {
    if w == [1, 0, 0, 0, 0, 0, 0, 0] then [2, 0, 0, 0, 0, 0, 0, 0] else [1, 0, 0, 0, 0, 0, 0, 0]
  }

  /** A small word is loaded whole, whatever the size and sign. */
  lemma SmallWordLoads(w: Word, n: nat, sx: bool)
    requires SizeOk(n) && w[0] < 128 && w[1..] == Zeros(7)
    ensures Extended(w[..n], sx) == w
  {
    assert forall j :: 1 <= j < 8 ==> w[j] == w[1..][j - 1] == 0;
    assert forall j :: 0 <= j < 8 ==> Extended(w[..n], sx)[j] == w[j];
  }

  lemma {:induction false} ValueOfZeros(bytes: seq<byte>)
    requires bytes == Zeros(|bytes|)
    ensures Value(bytes) == 0
    decreases |bytes|
  {
    if bytes != [] {
      assert bytes[1..] == Zeros(|bytes| - 1);
      ValueOfZeros(bytes[1..]);
    }
  }

  lemma U64OfSmall(w: Word)
    requires w[1..] == Zeros(7)
    ensures U64(w) == w[0] as nat
  {
    ValueOfZeros(w[1..]);
  }

  lemma {:induction false} DigitsOfZero(count: nat)
    ensures Digits(0, count) == Zeros(count)
    decreases count
  {
    if count > 0 {
      DigitsOfZero(count - 1);
      assert Zeros(count)[1..] == Zeros(count - 1);
    }
  }

  lemma FromU64OfOne()
    ensures FromU64(1) == [1, 0, 0, 0, 0, 0, 0, 0]
  {
    DigitsOfZero(7);
    assert Zeros(7) == [0, 0, 0, 0, 0, 0, 0];
  }

  lemma WrapsTo(k: nat, m: nat)
    requires k < TWO64 && m < TWO64
    ensures (m + k) % TWO64 == 0 <==> m == (TWO64 - k) % TWO64
  {
    if k == 0 {
      assert (TWO64 - k) % TWO64 == 0 && (m + k) % TWO64 == m;
    } else {
      assert (TWO64 - k) % TWO64 == TWO64 - k;
    }
  }

  lemma OtherDiffers(n: nat)
    requires n < TWO64
    ensures U64(Other(FromU64(n))) < TWO64 && U64(Other(FromU64(n))) != n
  {
    FromU64Is(n);
    FromU64OfOne();
    U64OfSmall([1, 0, 0, 0, 0, 0, 0, 0]);
    U64OfSmall([2, 0, 0, 0, 0, 0, 0, 0]);
  }

  /** The register that makes the address 0; loaded from there, a small word gives another address. */
  function Negated(k: nat): Word
    requires k < TWO64
  {
    FromU64((TWO64 - k) % TWO64)
  }

  lemma OtherAddress(k: nat)
    requires k < TWO64
    ensures At(Negated(k), k) == 0 && At(Other(Negated(k)), k) != 0
  {
    var n := (TWO64 - k) % TWO64;
    FromU64Is(n);
    OtherDiffers(n);
    WrapsTo(k, n);
    WrapsTo(k, U64(Other(FromU64(n))));
  }

  function Everywhere(i: nat): nat -> nat {
    pc => i
  }

  lemma LoadRegs(i: nat)
    requires IsLoad(i)
    ensures DecodeRegs(i) == Regs(i / 0x8000 % 32, -1, i / 128 % 32) && i != 0
  {
  }

  lemma LoadEffect(f: Adder, i: nat, a: Machine<seq<byte>>, q: Regs)
    requires IsLoad(i) && a.Valid() && q == DecodeRegs(i) && q.rs1 > 0 && q.rd >= 0
    ensures var u := FlatWorld(f, Everywhere(i));
      var e := EffectAt(u, a);
      && e == LoadMem(q.rd, f.at(a.regs[q.rs1], ImmI(i)), SizeOf(i), Funct3(i) < 3)
      && Step(u, a) == Perform(u, a, e).(pc := Predictor.NextPc(a.pc))
  {
    LoadRegs(i);
    var v1 := a.regs[q.rs1];
    assert OperandsOf(a.regs, q) == (v1, ONES);
    assert EffectOf(f, i, v1, ONES) == LoadMem(q.rd, f.at(v1, ImmI(i)), SizeOf(i), Funct3(i) < 3);
  }

  /** What a load does, its fields taken apart. */
  lemma LoadStep(f: Adder, i: nat, a: Machine<seq<byte>>, q: Regs, w: Word)
    requires IsLoad(i) && a.Valid() && q == DecodeRegs(i) && q.rs1 > 0 && q.rd >= 0
    requires |a.mem| == 8 && a.mem[0] < 128 && a.mem[1..] == Zeros(7)
    requires w == if f.at(a.regs[q.rs1], ImmI(i)) == 0 then a.mem else ZERO
    ensures var u := FlatWorld(f, Everywhere(i));
      EffectAt(u, a).LoadMem? && Step(u, a).regs == a.regs[q.rd := w] && Step(u, a).mem == a.mem
  {
    LoadEffect(f, i, a, q);
    assert ZERO[1..] == Zeros(7);
    SmallMemory(a.mem, f.at(a.regs[q.rs1], ImmI(i)));
    SmallLoadPerforms(FlatWorld(f, Everywhere(i)), a, EffectAt(FlatWorld(f, Everywhere(i)), a), w);
  }

  /** A memory that is one small word holds it at address 0, and zero anywhere else. */
  lemma SmallMemory(m: seq<byte>, x: nat)
    requires |m| == 8 && m[1..] == Zeros(7)
    ensures FlatLoad(m, x) == if x == 0 then m else ZERO
  {
    if 0 < x < 8 {
      assert m[x..] == m[1..][x - 1..] == Zeros(8 - x);
      assert forall j :: 0 <= j < 8 ==> FlatLoad(m, x)[j] == 0;
    }
  }

  lemma SmallLoadPerforms(u: World<seq<byte>>, a: Machine<seq<byte>>, e: Effect, w: Word)
    requires a.Valid() && e.LoadMem? && SizeOk(e.size) && e.reg < 32 && u.load(a.mem, e.address) == w
    requires w[0] < 128 && w[1..] == Zeros(7)
    ensures Perform(u, a, e) == a.(regs := a.regs[e.reg := w])
  {
    SmallWordLoads(w, e.size, e.signExtend);
  }

  /** Loading through `rd` twice, with adders that tell the two addresses apart. */
  lemma ChainedLoadsDiffer(f: Adder, i: nat, a: Machine<seq<byte>>, q: Regs, w: Word)
    requires IsLoad(i) && a.Valid() && q == DecodeRegs(i) && q.rd == q.rs1 > 0 && a.pc == 0
    requires w == a.mem && 0 < w[0] < 128 && w[1..] == Zeros(7)
    requires f.at(a.regs[q.rd], ImmI(i)) == 0 && f.at(w, ImmI(i)) != 0
    ensures var u := FlatWorld(f, Everywhere(i)); Step(u, Step(u, a).(pc := 0)).regs != Step(u, a).regs
  {
    var u := FlatWorld(f, Everywhere(i));
    LoadStep(f, i, a, q, w);
    var b := Step(u, a).(pc := 0);
    assert b.regs[q.rd] == w;
    LoadStep(f, i, b, q, ZERO);
    assert Step(u, b).regs[q.rd] == ZERO;
  }

  lemma OtherIsSmall(w: Word)
    ensures 0 < Other(w)[0] < 128 && Other(w)[1..] == Zeros(7)
  {
  }

  /** The address register holds what makes the address 0, where there is a small word. */
  function LoadWitness(i: nat): (a: Machine<seq<byte>>)
    requires 0 <= DecodeRegs(i).rd
    ensures a.Valid()
  {
    var v := Negated(ImmI(i));
    Machine(0, ZeroFile()[DecodeRegs(i).rd := v], Other(v))
  }

  /** Every load of the program that overwrites its own address register gives something else when it is
      run twice, from some machine. */
  lemma LoadTwiceDiffers(i: nat)
    requires IsLoad(i) && DecodeRegs(i).rd == DecodeRegs(i).rs1 != 0
    ensures var u := FlatWorld(Machine64(), Everywhere(i));
      var a := LoadWitness(i);
      && HandlersOk(u) && StoresSettle(u) && EffectAt(u, a).LoadMem? && !KeepsSources(u.code(a.pc))
      && Step(u, Step(u, a).(pc := 0)).regs != Step(u, a).regs
  {
    var a, q := LoadWitness(i), DecodeRegs(i);
    FlatWorldOk(Machine64(), Everywhere(i));
    var k := ImmI(i);
    OtherAddress(k);
    OtherIsSmall(Negated(k));
    LoadRegs(i);
    assert a.regs[q.rd] == Negated(k);
    LoadStep(Machine64(), i, a, q, Other(Negated(k)));
    ChainedLoadsDiffer(Machine64(), i, a, q, Other(Negated(k)));
  }

  ghost predicate RunsTwice(u: World<seq<byte>>) {
    forall a: Machine<seq<byte>> :: a.Valid() ==> Step(u, Step(u, a).(pc := a.pc)) == Step(u, a)
  }

  lemma LoadIsLoad(f: Adder, i: nat, a: Machine<seq<byte>>)
    requires IsLoad(i) && a.Valid()
    ensures EffectAt(FlatWorld(f, Everywhere(i)), a).LoadMem?
  {
    LoadRegs(i);
  }

  /** A load of the program may run twice from every machine exactly when it keeps its sources. */
  lemma LoadRepeatsIff(i: nat)
    requires IsLoad(i)
    ensures RunsTwice(FlatWorld(Machine64(), Everywhere(i))) <==> KeepsSources(i)
  {
    var u := FlatWorld(Machine64(), Everywhere(i));
    LoadRegs(i);
    if KeepsSources(i) {
      FlatWorldOk(Machine64(), Everywhere(i));
      forall a: Machine<seq<byte>> | a.Valid() ensures Step(u, Step(u, a).(pc := a.pc)) == Step(u, a) {
        LoadIsLoad(Machine64(), i, a);
        RepeatIsHarmless(u, a);
      }
    } else {
      LoadTwiceDiffers(i);
    }
  }

  // ---------------------------------------------------------------- a store and its successor

  function PairCode(i1: nat, i2: nat): nat -> nat {
    pc => if pc == 0 then i1 else i2
  }

  lemma PlusZero(k: nat)
    requires 0 < k < TWO64
    ensures U64(Plus(ZERO, k)) == k && Plus(ZERO, k) != ZERO
  {
    PlusZeroIs(k);
    FromU64Is(k);
    U64OfSmall(ZERO);
  }

  lemma PlusZeroIs(k: nat)
    requires k < TWO64
    ensures Plus(ZERO, k) == FromU64(k)
  {
    U64OfSmall(ZERO);
  }

  lemma PlusTwice(k: nat)
    requires 0 < k < TWO64
    ensures Plus(Plus(ZERO, k), k) != Plus(ZERO, k)
  {
    PlusZero(k);
    Shifted(k, k);
    FromU64Is((k + k) % TWO64);
  }

  lemma Shifted(k: nat, x: nat)
    requires 0 < k < TWO64 && x < TWO64
    ensures (k + x) % TWO64 != x
  {
    if k + x < TWO64 {
      assert (k + x) % TWO64 == k + x;
    } else {
      assert (k + x) % TWO64 == k + x - TWO64;
    }
  }

  lemma PairRegs(i1: nat, i2: nat)
    requires IsStore(i1) && IsAddi(i2)
    ensures var q1, q2 := DecodeRegs(i1), DecodeRegs(i2);
      && 0 <= q1.rs1 && 0 <= q1.rs2 && q1.rd == -1 && i1 != 0
      && 0 <= q2.rs1 && q2.rs2 == -1 && q2.rd == i2 / 128 % 32 >= 0 && i2 != 0
  {
  }

  /** What the store at 0 and the addition anywhere else do, their fields taken apart. */
  lemma StoreStep(f: Adder, i1: nat, i2: nat, a: Machine<seq<byte>>, q: Regs)
    requires IsStore(i1) && IsAddi(i2) && a.Valid() && a.pc == 0 && q == DecodeRegs(i1)
    ensures 0 <= q.rs1 < 32 && 0 <= q.rs2 < 32
    ensures var u := FlatWorld(f, PairCode(i1, i2));
      var n, x, v := SizeOf(i1), f.at(ReadReg(a.regs, q.rs1), ImmS(i1)), ReadReg(a.regs, q.rs2);
      && EffectAt(u, a) == StoreMem(x, n, v[..n] + Zeros(8 - n))
      && Step(u, a) == Machine(4, a.regs, FlatStore(a.mem, x, n, v))
  {
    PairRegs(i1, i2);
    var n, v1, v2 := SizeOf(i1), ReadReg(a.regs, q.rs1), ReadReg(a.regs, q.rs2);
    assert OperandsOf(a.regs, q) == (v1, v2);
    assert (v2[..n] + Zeros(8 - n))[..n] == v2[..n];
    assert EffectOf(f, i1, v1, v2) == StoreMem(f.at(v1, ImmS(i1)), n, v2[..n] + Zeros(8 - n));
  }

  lemma AddiStep(f: Adder, i1: nat, i2: nat, a: Machine<seq<byte>>, q: Regs)
    requires IsStore(i1) && IsAddi(i2) && a.Valid() && a.pc != 0 && q == DecodeRegs(i2)
    ensures 0 <= q.rs1 < 32 && 0 <= q.rd < 32
    ensures var u := FlatWorld(f, PairCode(i1, i2));
      var v := f.plus(ReadReg(a.regs, q.rs1), ImmI(i2));
      EffectAt(u, a) == WriteReg(q.rd, v) && Step(u, a) == Machine(Predictor.NextPc(a.pc), a.regs[q.rd := v], a.mem)
  {
    PairRegs(i1, i2);
    var v1 := ReadReg(a.regs, q.rs1);
    assert OperandsOf(a.regs, q) == (v1, ONES);
    assert EffectOf(f, i2, v1, ONES) == WriteReg(q.rd, f.plus(v1, ImmI(i2)));
  }

  /** The addition done after the store at 0, and both run again with it let past. */
  lemma PairSteps(f: Adder, i1: nat, i2: nat, b: Machine<seq<byte>>, q1: Regs, q2: Regs)
    requires IsStore(i1) && IsAddi(i2) && b.Valid() && b.pc == 4 && q1 == DecodeRegs(i1) && q2 == DecodeRegs(i2)
    ensures 0 <= q1.rs1 < 32 && 0 <= q1.rs2 < 32 && 0 <= q2.rs1 < 32 && 0 <= q2.rd < 32
    ensures var u := FlatWorld(f, PairCode(i1, i2));
      var regs := b.regs[q2.rd := f.plus(ReadReg(b.regs, q2.rs1), ImmI(i2))];
      && Step(u, b).regs == regs && Step(u, b).mem == b.mem
      && var d := Step(u, Step(u, Perform(u, b, EffectAt(u, b)).(pc := 0)));
         && d.regs == regs[q2.rd := f.plus(ReadReg(regs, q2.rs1), ImmI(i2))]
         && d.mem == FlatStore(b.mem, f.at(ReadReg(regs, q1.rs1), ImmS(i1)), SizeOf(i1), ReadReg(regs, q1.rs2))
  {
    var u := FlatWorld(f, PairCode(i1, i2));
    PairRegs(i1, i2);
    AddiStep(f, i1, i2, b, q2);
    var c := Perform(u, b, EffectAt(u, b)).(pc := 0);
    StoreStep(f, i1, i2, c, q1);
    AddiStep(f, i1, i2, Step(u, c), q2);
  }

  /** Right after the store at 0, its successor at 4 is let past and both are run again. */
  ghost predicate PairRunsTwice(u: World<seq<byte>>) {
    forall b: Machine<seq<byte>> :: b.Valid() && b.pc == 4 && JustDone(u, b, 0, EffectAt(u, b.(pc := 0))) ==>
      Step(u, Step(u, Perform(u, b, EffectAt(u, b)).(pc := 0))) == Step(u, b)
  }

  lemma StoreJustDone(f: Adder, i1: nat, i2: nat, b: Machine<seq<byte>>, q: Regs)
    requires IsStore(i1) && IsAddi(i2) && b.Valid() && b.pc == 4 && q == DecodeRegs(i1)
    requires 0 <= q.rs1 < 32 && 0 <= q.rs2 < 32
    requires FlatStore(b.mem, f.at(ReadReg(b.regs, q.rs1), ImmS(i1)), SizeOf(i1), ReadReg(b.regs, q.rs2)) == b.mem
    ensures var u := FlatWorld(f, PairCode(i1, i2)); JustDone(u, b, 0, EffectAt(u, b.(pc := 0)))
  {
    StoreStep(f, i1, i2, b.(pc := 0), q);
  }

  /** An addition of a nonzero constant to the register itself counts twice. */
  lemma SelfAddDiffers(i1: nat, i2: nat)
    requires IsStore(i1) && IsAddi(i2) && ImmI(i2) != 0 && DecodeRegs(i2).rd == DecodeRegs(i2).rs1 != 0
    ensures !PairRunsTwice(FlatWorld(Machine64(), PairCode(i1, i2)))
  {
    var f, q1, q2 := Machine64(), DecodeRegs(i1), DecodeRegs(i2);
    var b := Machine(4, ZeroFile(), []);
    PairRegs(i1, i2);
    PairSteps(f, i1, i2, b, q1, q2);
    StoreJustDone(f, i1, i2, b, q1);
    PlusTwice(ImmI(i2));
  }

  /** A word with another low byte, and so another address. */
  function Unlike(p: Word): Word {
    if p[0] == 0 then [1, 0, 0, 0, 0, 0, 0, 0] else ZERO
  }

  lemma UnlikeApart(p: Word, x: nat)
    requires U64(p) < TWO64 && x < TWO64
    ensures Unlike(p)[0] != p[0] && At(p, x) != At(Unlike(p), x) && At(p, x) < TWO64 && At(Unlike(p), x) < TWO64
  {
    U64OfSmall(Unlike(p));
    assert U64(p) == p[0] + 256 * Value(p[1..]);
    ModApart(U64(p), U64(Unlike(p)), x);
  }

  lemma ModApart(a: nat, b: nat, x: nat)
    requires a < TWO64 && b < TWO64 && x < TWO64 && a != b
    ensures (a + x) % TWO64 != (b + x) % TWO64
  {
    Wrapped(a + x);
    Wrapped(b + x);
  }

  lemma Wrapped(n: nat)
    requires n < 2 * TWO64
    ensures n % TWO64 == if n < TWO64 then n else n - TWO64
  {
  }

  /** A memory that holds `v` at `x`, and everywhere else bytes that storing `v'` at `x'` would change. */
  function Marked(x: nat, v: Word, x': nat, v': Word, n: nat): (m: seq<byte>)
    requires n <= 8
    ensures |m| == TWO64 + 8
  {
    seq(TWO64 + 8, y requires 0 <= y < TWO64 + 8 =>
      if x <= y < x + n then v[y - x] else if x' <= y < x' + n && v'[y - x'] == 0 then 1 else 0)
  }

  lemma MarkedTells(x: nat, v: Word, x': nat, v': Word, n: nat)
    requires x < TWO64 && x' < TWO64 && 1 <= n <= 8 && (x' != x || v'[0] != v[0])
    ensures var m := Marked(x, v, x', v', n); FlatStore(m, x, n, v) == m && FlatStore(m, x', n, v') != m
  {
    var m := Marked(x, v, x', v', n);
    var y := if x' <= x then x' else x' + n - 1;
    assert FlatStore(m, x', n, v')[y] != m[y];
  }

  /** A memory that the store leaves as it is before the addition and changes after it. */
  lemma MovedStoreDiffers(f: Adder, i1: nat, i2: nat, regs: seq<Word>, regs': seq<Word>, m: seq<byte>, q1: Regs,
      q2: Regs)
    requires IsStore(i1) && IsAddi(i2) && q1 == DecodeRegs(i1) && q2 == DecodeRegs(i2) && |regs| == 32
    requires 0 <= q1.rs1 < 32 && 0 <= q1.rs2 < 32 && 0 <= q2.rs1 < 32 && 0 <= q2.rd < 32
    requires regs' == regs[q2.rd := f.plus(ReadReg(regs, q2.rs1), ImmI(i2))]
    requires FlatStore(m, f.at(ReadReg(regs, q1.rs1), ImmS(i1)), SizeOf(i1), ReadReg(regs, q1.rs2)) == m
    requires FlatStore(m, f.at(ReadReg(regs', q1.rs1), ImmS(i1)), SizeOf(i1), ReadReg(regs', q1.rs2)) != m
    ensures !PairRunsTwice(FlatWorld(f, PairCode(i1, i2)))
  {
    var b := Machine(4, regs, m);
    PairSteps(f, i1, i2, b, q1, q2);
    StoreJustDone(f, i1, i2, b, q1);
  }

  /** Registers all zero but the addition's, which is a source of the store and holds something unlike what the
      addition brings, over a memory that shows where the store went. */
  lemma MarkedPairDiffers(f: Adder, i1: nat, i2: nat, q1: Regs, q2: Regs, s: nat, p: Word, w: Word)
    requires IsStore(i1) && IsAddi(i2) && q1 == DecodeRegs(i1) && q2 == DecodeRegs(i2) && s == ImmS(i1)
    requires 0 <= q1.rs1 < 32 && 0 <= q1.rs2 < 32 && 0 <= q2.rs1 < 32 && 0 < q2.rd < 32
    requires q2.rd != q2.rs1 && (q2.rd == q1.rs1 || q2.rd == q1.rs2)
    requires p == f.plus(ZERO, ImmI(i2)) && p[0] != w[0] && f.at(p, s) != f.at(w, s)
    requires f.at(p, s) < TWO64 && f.at(w, s) < TWO64 && f.at(ZERO, s) < TWO64
    ensures !PairRunsTwice(FlatWorld(f, PairCode(i1, i2)))
  {
    var regs := ZeroFile()[q2.rd := w];
    var regs' := regs[q2.rd := p];
    var x, v := f.at(ReadReg(regs, q1.rs1), s), ReadReg(regs, q1.rs2);
    var x', v' := f.at(ReadReg(regs', q1.rs1), s), ReadReg(regs', q1.rs2);
    MarkedTells(x, v, x', v', SizeOf(i1));
    assert ReadReg(regs, q2.rs1) == ZERO;
    MovedStoreDiffers(f, i1, i2, regs, regs', Marked(x, v, x', v', SizeOf(i1)), q1, q2);
  }

  lemma SumUnlike(k: nat, x: nat)
    requires k < TWO64 && x < TWO64
    ensures var p := Plus(ZERO, k);
      && p[0] != Unlike(p)[0] && At(p, x) != At(Unlike(p), x)
      && At(p, x) < TWO64 && At(Unlike(p), x) < TWO64 && At(ZERO, x) < TWO64
  {
    PlusZeroIs(k);
    FromU64Is(k);
    UnlikeApart(Plus(ZERO, k), x);
  }

  lemma ImmediatesFit(i: nat)
    ensures ImmI(i) < TWO64 && ImmS(i) < TWO64
  {
  }

  /** An addition to another register that is a source of the store makes the store another one. */
  lemma DependentDiffers(i1: nat, i2: nat)
    requires IsStore(i1) && IsAddi(i2) && DecodeRegs(i2).rd != DecodeRegs(i2).rs1 && DecodeRegs(i2).rd != 0
    requires DecodeRegs(i2).rd == DecodeRegs(i1).rs1 || DecodeRegs(i2).rd == DecodeRegs(i1).rs2
    ensures !PairRunsTwice(FlatWorld(Machine64(), PairCode(i1, i2)))
  {
    var k, s := ImmI(i2), ImmS(i1);
    PairRegs(i1, i2);
    ImmediatesFit(i1);
    ImmediatesFit(i2);
    SumUnlike(k, s);
    MarkedPairDiffers(Machine64(), i1, i2, DecodeRegs(i1), DecodeRegs(i2), s, Plus(ZERO, k), Unlike(Plus(ZERO, k)));
  }

  lemma {:induction false} DigitsOfValue(bytes: seq<byte>)
    ensures Digits(Value(bytes), |bytes|) == bytes && Value(bytes) < Pow2(8 * |bytes|)
    decreases |bytes|
  {
    if bytes != [] {
      DigitsOfValue(bytes[1..]);
      Pow2Adds(8, 8 * (|bytes| - 1));
      assert Pow2(8) == 256;
      DivModUnique(Value(bytes), 256, Value(bytes[1..]), bytes[0]);
    }
  }

  lemma PlusNothing(w: Word)
    ensures Plus(w, 0) == w
  {
    DigitsOfValue(w);
    Pow2Of64();
    Wrapped(U64(w));
  }

  /** Independent of the store, or an addition of zero to the register itself. */
  predicate Harmless(i1: nat, i2: nat) {
    Independent(i1, i2) || (DecodeRegs(i2).rd == DecodeRegs(i2).rs1 && ImmI(i2) == 0)
  }

  lemma HarmlessPair(i1: nat, i2: nat, b: Machine<seq<byte>>)
    requires IsStore(i1) && IsAddi(i2) && Harmless(i1, i2) && b.Valid() && b.pc == 4
    requires var u := FlatWorld(Machine64(), PairCode(i1, i2)); JustDone(u, b, 0, EffectAt(u, b.(pc := 0)))
    ensures var u := FlatWorld(Machine64(), PairCode(i1, i2));
      Step(u, Step(u, Perform(u, b, EffectAt(u, b)).(pc := 0))) == Step(u, b)
  {
    var f := Machine64();
    var u := FlatWorld(f, PairCode(i1, i2));
    var q := DecodeRegs(i2);
    StoreStep(f, i1, i2, b.(pc := 0), DecodeRegs(i1));
    AddiStep(f, i1, i2, b, q);
    if Independent(i1, i2) {
      FlatWorldOk(f, PairCode(i1, i2));
      PairIsHarmless(u, b, 0, EffectAt(u, b.(pc := 0)), EffectAt(u, b).value);
    } else {
      PlusNothing(b.regs[q.rd]);
      assert b.regs[q.rd := b.regs[q.rd]] == b.regs;
      assert Perform(u, b, EffectAt(u, b)) == b;
    }
  }

  /** For every store and every immediate addition behind it: letting the addition past and running both again reaches
      the sequential state, from every machine over a flat memory, exactly when they are harmless to each other. */
  lemma PairRepeatsIff(i1: nat, i2: nat)
    requires IsStore(i1) && IsAddi(i2)
    ensures PairRunsTwice(FlatWorld(Machine64(), PairCode(i1, i2))) <==> Harmless(i1, i2)
  {
    var u := FlatWorld(Machine64(), PairCode(i1, i2));
    PairRegs(i1, i2);
    if Harmless(i1, i2) {
      forall b: Machine<seq<byte>> | b.Valid() && b.pc == 4 && JustDone(u, b, 0, EffectAt(u, b.(pc := 0)))
        ensures Step(u, Step(u, Perform(u, b, EffectAt(u, b)).(pc := 0))) == Step(u, b)
      {
        HarmlessPair(i1, i2, b);
      }
    } else if DecodeRegs(i2).rd == DecodeRegs(i2).rs1 {
      SelfAddDiffers(i1, i2);
    } else {
      DependentDiffers(i1, i2);
    }
  }
}
