/** Pipeline correctness: forwarding, the path executed, and refinement of a machine that
    executes one instruction at a time. */
module PipelineProofs {
  import opened Words
  import opened Pipeline
  import Predictor

  // ---------------------------------------------------------------- the sequential machine

  /** A program and a data memory of any kind: eight bytes at an address, and a store. */
  datatype World<!M> = World(exec: Handlers, code: nat -> nat, load: (M, nat) -> Word, store: (M, nat, nat, Word) -> M)

  datatype Machine<M> = Machine(pc: nat, regs: seq<Word>, mem: M) {
    predicate Valid() {
      |regs| == 32
    }
  }

  /** The value a load of `size` bytes should have. */
  function Extended(bytes: seq<byte>, signExtend: bool): Word
    requires 1 <= |bytes| <= 8
  {
    bytes + Repeat(if signExtend && bytes[|bytes| - 1] >= 128 then 255 else 0, 8 - |bytes|)
  }

  predicate SizeOk(size: nat) {
    size == 1 || size == 2 || size == 4 || size == 8
  }

  function Perform<M>(u: World<M>, s: Machine<M>, e: Effect): (r: Machine<M>)
    requires s.Valid()
    ensures r.Valid() && r.pc == s.pc
  {
    match e
    case NoEffect => s
    case WriteReg(r, v) => s.(regs := WriteRegFile(s.regs, r, v))
    case LoadMem(r, a, n, sx) =>
      if SizeOk(n) then s.(regs := WriteRegFile(s.regs, r, Extended(u.load(s.mem, a)[..n], sx))) else s
    case StoreMem(a, n, v) => s.(mem := u.store(s.mem, a, n, v))
  }

  function OperandsOf(regs: seq<Word>, q: Regs): (Word, Word)
    requires |regs| == 32 && -1 <= q.rs1 && -1 <= q.rs2
  {
    (if q.rs1 == -1 then ONES else ReadReg(regs, q.rs1), if q.rs2 == -1 then ONES else ReadReg(regs, q.rs2))
  }

  /** One instruction: fetch, read registers, execute, perform. The zero word is a nop. */
  function Step<M>(u: World<M>, s: Machine<M>): (r: Machine<M>)
    requires s.Valid()
    ensures r.Valid()
  {
    var i := u.code(s.pc);
    if i == 0 then s.(pc := Predictor.NextPc(s.pc))
    else
      var (v1, v2) := OperandsOf(s.regs, DecodeRegs(i));
      var e := u.exec(i, s.pc, v1, v2);
      Perform(u, s, e.effect).(pc := e.nextPc)
  }

  /** Handlers write the register the decoder calls rd, and access memory in powers of two. */
  ghost predicate HandlersOk<M>(u: World<M>) {
    forall i, pc, v1, v2 :: EffectOk(i, u.exec(i, pc, v1, v2).effect)
  }

  predicate EffectOk(i: nat, e: Effect) {
    match e
    case NoEffect => true
    case WriteReg(r, v) => r == DecodeRegs(i).rd
    case LoadMem(r, a, n, sx) => r == DecodeRegs(i).rd && SizeOk(n)
    case StoreMem(a, n, v) => SizeOk(n)
  }

  // ---------------------------------------------------------------- draining the pipeline

  /** What the instruction in the memory stage still has to do. */
  function PendingEffect(m: MReg): Effect {
    if m.readWrite == REGISTER then WriteReg(m.reg, m.value)
    else if m.readWrite == LOAD then LoadMem(m.reg, m.address, m.size, m.signExtend)
    else if m.readWrite == STORE then StoreMem(m.address, m.size, m.value)
    else NoEffect
  }

  /** Where the next instruction to execute is: in X unless squashed, else in D, else not yet fetched. */
  function NextToExecute(s: Pipe): nat {
    if s.x.notStalled && s.m.tainted == 0 then s.x.pc else AfterX(s)
  }

  function AfterX(s: Pipe): nat {
    if s.d.notStalled then s.d.pc else s.pc
  }

  /** The abstraction: W, then M, retired. */
  function Abs<M>(u: World<M>, s: Pipe, mem: M): (r: Machine<M>)
    requires s.Valid()
    ensures r.Valid()
  {
    Perform(u, Machine(NextToExecute(s), Writeback(s.regs, s.w), mem), PendingEffect(s.m))
  }

  /** Data memory after the memory stage. */
  function NextMem<M>(u: World<M>, s: Pipe, mem: M): M {
    if s.w.tainted == 0 && s.m.readWrite == STORE then u.store(mem, s.m.address, s.m.size, s.m.value) else mem
  }

  // ---------------------------------------------------------------- loads of fewer than eight bytes

  /** A load leaves the register with the right value exactly when it fills all eight bytes, or is
      negative and sign-extended, or the bytes it leaves alone were zero already. */
  lemma LoadExactIff(old_: Word, bytes: seq<byte>, signExtend: bool)
    requires SizeOk(|bytes|)
    ensures LoadedValue(old_, bytes, |bytes|, signExtend) == Extended(bytes, signExtend)
      <==> LoadFits(old_, bytes, signExtend)
  {
    var n := |bytes|;
    var value := Overlay(old_, bytes);
    var got, want := LoadedValue(old_, bytes, n, signExtend), Extended(bytes, signExtend);
    assert value[..n] == bytes && value[n..] == old_[n..];
    if LoadFits(old_, bytes, signExtend) {
      assert forall i :: 0 <= i < 8 ==> got[i] == want[i];
    } else {
      assert old_[n..] != Zeros(8 - n);
      assert want[n..] == Zeros(8 - n);
      assert got[n..] == old_[n..] || got[n..] == Repeat(255, 8 - n);
      assert n < 8 && Repeat(255, 8 - n)[0] != Zeros(8 - n)[0];
    }
  }

  /** The word any load leaves: below, its bytes; above, all ones when sign extension finds the top bit of the loaded
      bytes set, or, for four bytes, anything left over above them; else what was there. */
  lemma LoadLeaves(old_: Word, bytes: seq<byte>, signExtend: bool)
    requires SizeOk(|bytes|)
    ensures var n := |bytes|;
      LoadedValue(old_, bytes, n, signExtend) == bytes +
        (if signExtend && n < 8 && (bytes[n - 1] >= 128 || (n == 4 && old_[4..] != Zeros(4)))
         then Repeat(255, 8 - n) else old_[n..])
  {
    var n := |bytes|;
    var value := Overlay(old_, bytes);
    assert value[..n] == bytes && value[n..] == old_[n..];
    if n == 4 {
      assert old_[4..] != Zeros(4) <==> exists i :: 4 <= i < 8 && value[i] != 0;
    }
    assert value == bytes + old_[n..];
  }

  predicate LoadFits(old_: Word, bytes: seq<byte>, signExtend: bool)
    requires 1 <= |bytes| <= 8
  {
    |bytes| == 8 || (signExtend && bytes[|bytes| - 1] >= 128) || old_[|bytes|..] == Zeros(8 - |bytes|)
  }

  // ---------------------------------------------------------------- the run invariant

  /** Holds in every reachable state, whatever the memory system does: an empty W names no register,
      carries zero, and is tainted only while it reports a stall; registers decoded match their instruction. */
  ghost predicate Shape(s: Pipe) {
    && s.Valid()
    && (!s.w.op ==> s.w.reg == 0 && s.w.value == ZERO)
    && (s.w.tainted > 0 ==> s.w.stall != 0 && s.w.tainted == 1)
    && s.w.reg < 32
    && (s.w.stall != 0 ==> MOk(s.w.memory))
    && MOk(s.m)
    && (s.x.notStalled ==> s.x.regs == DecodeRegs(s.x.instruction))
  }

  ghost predicate MOk(m: MReg) {
    && m.tainted <= 1
    && (m.readWrite == LOAD || m.readWrite == REGISTER ==> m.reg < 32)
    && (m.readWrite == LOAD || m.readWrite == STORE ==> SizeOk(m.size))
  }

  lemma ShapeKept<M>(u: World<M>, s: Pipe, data: DataOutcome, fetch: FetchOutcome)
    requires HandlersOk(u) && Shape(s)
    ensures Shape(Cycle(u.exec, s, data, fetch))
  {
    if Executes(s) && s.x.instruction != 0 {
      assert EffectOk(s.x.instruction, u.exec(s.x.instruction, s.x.pc, s.x.v1, s.x.v2).effect);
    }
  }

  function CycleAll(exec: Handlers, s: Pipe, ins: seq<(DataOutcome, FetchOutcome)>): (r: Pipe)
    requires s.Valid()
    ensures r.Valid()
    decreases |ins|
  {
    if ins == [] then s else CycleAll(exec, Cycle(exec, s, ins[0].0, ins[0].1), ins[1..])
  }

  lemma {:induction false} ShapeAlways<M>(u: World<M>, s: Pipe, ins: seq<(DataOutcome, FetchOutcome)>)
    requires HandlersOk(u) && Shape(s)
    ensures Shape(CycleAll(u.exec, s, ins))
    decreases |ins|
  {
    if ins != [] {
      ShapeKept(u, s, ins[0].0, ins[0].1);
      ShapeAlways(u, Cycle(u.exec, s, ins[0].0, ins[0].1), ins[1..]);
    }
  }

  // ---------------------------------------------------------------- forwarding

  /** The registers once W, M and X have retired, whatever M's load brings. */
  function Retired<M>(u: World<M>, s: Pipe, mem: M): (r: Machine<M>)
    requires s.Valid()
    ensures r.Valid()
  {
    Perform(u, Abs(u, s, mem), if Executes(s) then Run(u.exec, s.x).effect else NoEffect)
  }

  /** Decode issues the instruction in D this cycle. */
  predicate Issues(s: Pipe) {
    DecodeActive(s) && !DecodeWaits(s)
  }

  /** The writes to register 0 still on their way: M's, or else W's, is of the value zero. */
  predicate ZeroClean(m: MReg, w: WReg) {
    if m.readWrite == REGISTER && m.reg == 0 then m.value == ZERO
    else w.op && w.reg == 0 ==> w.value == ZERO
  }

  /** A source register decode may use: named, and not the always-zero register while a nonzero value is
      on its way there. */
  predicate Readable(s: Pipe, r: int) {
    && r in {DecodeRegs(s.d.instruction).rs1, DecodeRegs(s.d.instruction).rs2} && r != -1
    && (r == 0 ==> ZeroClean(s.m, s.w))
  }

  lemma RetiredKeepsOthers<M>(u: World<M>, s: Pipe, mem: M, r: nat)
    requires HandlersOk(u) && Shape(s) && r < 32 && s.x.regs.rd != r
    ensures Retired(u, s, mem).regs[r] == Abs(u, s, mem).regs[r]
  {
    if Executes(s) && s.x.instruction != 0 {
      assert EffectOk(s.x.instruction, u.exec(s.x.instruction, s.x.pc, s.x.v1, s.x.v2).effect);
    }
  }

  /** A register decode issues is not on its way from X, nor by a load in M. */
  lemma IssuedIsSettled(s: Pipe, r: nat)
    requires Issues(s) && Readable(s, r)
    ensures r < 32 && s.x.regs.rd != r && !(s.m.readWrite == LOAD && s.m.reg == r)
  {
  }

  lemma DrainedRegister<M>(u: World<M>, s: Pipe, mem: M, r: nat)
    requires Shape(s) && r < 32 && !(s.m.readWrite == LOAD && s.m.reg == r)
    ensures Abs(u, s, mem).regs[r] == if s.m.readWrite == REGISTER && s.m.reg == r then s.m.value
        else Writeback(s.regs, s.w)[r]
  {
  }

  lemma OperandIsDrained<M>(u: World<M>, s: Pipe, mem: M, r: nat)
    requires Shape(s) && Issues(s) && Readable(s, r)
    ensures Operand(s.x, s.m, s.w, Writeback(s.regs, s.w), r) == ReadReg(Abs(u, s, mem).regs, r)
  {
    IssuedIsSettled(s, r);
    DrainedRegister(u, s, mem, r);
    OperandReads(s.x, s.m, s.w, s.regs, Abs(u, s, mem).regs, r);
  }

  lemma OperandReads(x: XReg, m: MReg, w: WReg, regs: seq<Word>, drained: seq<Word>, r: nat)
    requires |regs| == 32 && |drained| == 32 && r < 32 && x.regs.rd != r && w.reg < 32
    requires (!w.op ==> w.reg == 0 && w.value == ZERO) && (r == 0 ==> ZeroClean(m, w))
    requires drained[r] == if m.readWrite == REGISTER && m.reg == r then m.value else Writeback(regs, w)[r]
    ensures Operand(x, m, w, Writeback(regs, w), r) == ReadReg(drained, r)
  {
  }

  /** Forwarding: in every reachable state and for every outcome of the memory system, an operand that
      decode issues is the register's value once everything ahead of it has retired. */
  lemma OperandIsRetired<M>(u: World<M>, s: Pipe, mem: M, r: nat)
    requires HandlersOk(u) && Shape(s) && Issues(s) && Readable(s, r)
    ensures Operand(s.x, s.m, s.w, Writeback(s.regs, s.w), r) == ReadReg(Retired(u, s, mem).regs, r)
  {
    OperandIsDrained(u, s, mem, r);
    RetiredKeepsOthers(u, s, mem, r);
  }

  lemma ForwardingCorrect<M>(u: World<M>, s: Pipe, ins: seq<(DataOutcome, FetchOutcome)>, mem: M, r: nat)
    requires HandlersOk(u) && Shape(s)
    requires var t := CycleAll(u.exec, s, ins); Issues(t) && Readable(t, r)
    ensures var t := CycleAll(u.exec, s, ins);
      Operand(t.x, t.m, t.w, Writeback(t.regs, t.w), r) == ReadReg(Retired(u, t, mem).regs, r)
  {
    ShapeAlways(u, s, ins);
    OperandIsRetired(u, CycleAll(u.exec, s, ins), mem, r);
  }

  /** Register 0 reads as zero exactly when the youngest write to it still in M or W, if any, is of zero. */
  lemma ZeroRegisterExactIff<M>(u: World<M>, s: Pipe, mem: M)
    requires HandlersOk(u) && Shape(s) && Issues(s)
    requires 0 in {DecodeRegs(s.d.instruction).rs1, DecodeRegs(s.d.instruction).rs2}
    ensures Operand(s.x, s.m, s.w, Writeback(s.regs, s.w), 0) == ReadReg(Retired(u, s, mem).regs, 0)
      <==> ZeroClean(s.m, s.w)
  {
    assert !Forwarded(s.x, s.m, s.w, 0).Wait?;
  }

  // ---------------------------------------------------------------- programs that leave register 0 alone

  predicate NamesZero(e: Effect) {
    (e.WriteReg? || e.LoadMem?) && e.reg == 0
  }

  /** The instruction writes register 0 under no operands. */
  ghost predicate Clear(exec: Handlers, i: nat) {
    forall pc, v1, v2 :: !NamesZero(exec(i, pc, v1, v2).effect)
  }

  /** Nothing on its way through the pipeline writes register 0. */
  ghost predicate ZeroQuiet(exec: Handlers, s: Pipe) {
    && (s.d.notStalled ==> s.d.instruction == 0 || Clear(exec, s.d.instruction))
    && (s.x.notStalled ==> s.x.instruction == 0 || Clear(exec, s.x.instruction))
    && !NamesZero(PendingEffect(s.m)) && (s.w.op ==> s.w.reg != 0)
    && (s.w.stall != 0 ==> !NamesZero(PendingEffect(s.w.memory)))
  }

  ghost predicate FetchesClear(exec: Handlers, fetch: FetchOutcome) {
    fetch.Fetched? ==> fetch.instruction == 0 || Clear(exec, fetch.instruction)
  }

  lemma ZeroQuietKept<M>(u: World<M>, s: Pipe, data: DataOutcome, fetch: FetchOutcome)
    requires Shape(s) && ZeroQuiet(u.exec, s) && FetchesClear(u.exec, fetch)
    ensures ZeroQuiet(u.exec, Cycle(u.exec, s, data, fetch))
  {
    if Executes(s) && s.x.instruction != 0 {
      assert !NamesZero(u.exec(s.x.instruction, s.x.pc, s.x.v1, s.x.v2).effect);
    }
  }

  lemma ZeroQuietIsSafe(exec: Handlers, s: Pipe)
    requires Shape(s) && ZeroQuiet(exec, s)
    ensures ZeroSafe(s)
  {
  }

  /** Over every run, whatever the memory system does, a program none of whose fetched instructions writes
      register 0 always reads it as zero. */
  lemma {:induction false} ZeroSafeAlways<M>(u: World<M>, s: Pipe, ins: seq<(DataOutcome, FetchOutcome)>)
    requires HandlersOk(u) && Shape(s) && ZeroQuiet(u.exec, s)
    requires forall k :: 0 <= k < |ins| ==> FetchesClear(u.exec, ins[k].1)
    ensures ZeroSafe(CycleAll(u.exec, s, ins)) && ZeroQuiet(u.exec, CycleAll(u.exec, s, ins))
    decreases |ins|
  {
    if ins == [] {
      ZeroQuietIsSafe(u.exec, s);
    } else {
      ShapeKept(u, s, ins[0].0, ins[0].1);
      assert FetchesClear(u.exec, ins[0].1);
      ZeroQuietKept(u, s, ins[0].0, ins[0].1);
      ZeroSafeAlways(u, Cycle(u.exec, s, ins[0].0, ins[0].1), ins[1..]);
    }
  }

  // ---------------------------------------------------------------- refinement

  /** No entry that predicts a jump belongs to a zero word, which never jumps. */
  ghost predicate Trained<M>(u: World<M>, table: seq<Predictor.Entry>) {
    forall i :: 0 <= i < |table| && table[i].counter > 1 ==> u.code(table[i].branch) != 0
  }

  /** The instructions in X and D are the program's, and predicted as the chain of registers says. */
  ghost predicate Path<M>(u: World<M>, s: Pipe) {
    && (s.x.notStalled ==>
          && s.x.instruction == u.code(s.x.pc)
          && (s.x.instruction == 0 ==> s.x.newPc == Predictor.NextPc(s.x.pc)))
    && (s.d.notStalled ==>
          && s.d.instruction == u.code(s.d.pc) && s.d.newPc == s.pc
          && (s.d.instruction == 0 ==> s.d.newPc == Predictor.NextPc(s.d.pc)))
    && (s.x.notStalled && s.m.tainted == 0 ==> s.x.newPc == AfterX(s))
  }

  ghost predicate Operands<M>(u: World<M>, s: Pipe, mem: M)
    requires s.Valid()
  {
    s.x.notStalled && s.m.tainted == 0 ==>
      s.x.regs.rs1 >= -1 && s.x.regs.rs2 >= -1 && (s.x.v1, s.x.v2) == OperandsOf(Abs(u, s, mem).regs, s.x.regs)
  }

  ghost predicate Coherent<M>(u: World<M>, s: Pipe, mem: M) {
    Shape(s) && s.w.stall == 0 && Trained(u, s.table) && Path(u, s) && Operands(u, s, mem)
  }

  /** A cycle without the departures: data accesses complete with memory's bytes, loads leave the
      right value, fetch hits, bubbles, or waits for its translation with D empty, decode does not
      wait in the cycle of a mispredict, and what is forwarded for register 0 is zero. */
  ghost predicate Smooth<M>(u: World<M>, s: Pipe, mem: M, data: DataOutcome, fetch: FetchOutcome)
    requires s.Valid()
  {
    && HonestData(u, s, mem, data)
    && HonestFetch(u, s, fetch)
    && !(Mispredicts(u.exec, s) && DecodeActive(s) && DecodeWaits(s))
    && ZeroSafe(s)
  }

  ghost predicate HonestData<M>(u: World<M>, s: Pipe, mem: M, data: DataOutcome) {
    && (s.m.readWrite == LOAD && SizeOk(s.m.size) ==>
          && data == Loaded(u.load(mem, s.m.address)[..s.m.size])
          && LoadFits(s.w.value, data.bytes, s.m.signExtend))
    && (s.m.readWrite == STORE ==> data == Stored)
  }

  ghost predicate HonestFetch<M>(u: World<M>, s: Pipe, fetch: FetchOutcome)
    requires s.Valid()
  {
    && (fetch.FetchTlbStall? ==> !s.d.notStalled)
    && (fetch.Fetched? ==> fetch.instruction == u.code(FetchPc(u.exec, s)))
  }

  predicate ZeroSafe(s: Pipe) {
    Issues(s) ==>
      (DecodeRegs(s.d.instruction).rs1 == 0 ==> Readable(s, 0))
          && (DecodeRegs(s.d.instruction).rs2 == 0 ==> Readable(s, 0))
  }

  /** The memory stage hands over to W exactly what draining M does. */
  lemma MemoryDrains<M>(u: World<M>, s: Pipe, mem: M, data: DataOutcome)
    requires Shape(s) && s.w.stall == 0 && HonestData(u, s, mem, data)
    ensures var file := Writeback(s.regs, s.w);
      var w := MemoryStage(s.w, s.m, data);
      && w.stall == 0 && w.tainted == 0
      && Perform(u, Machine(0, file, mem), PendingEffect(s.m)) == Machine(0, Writeback(file, w), NextMem(u, s, mem))
  {
    if s.m.readWrite == LOAD {
      LoadExactIff(s.w.value, data.bytes, s.m.signExtend);
    }
  }

  /** Execute queues exactly the effect of the instruction it runs. */
  lemma ExecuteQueues<M>(u: World<M>, s: Pipe)
    requires HandlersOk(u) && Shape(s) && s.w.stall == 0
    ensures PendingEffect(ExecuteStage(u.exec, s).m) == if Executes(s) then Run(u.exec, s.x).effect else NoEffect
  {
  }

  lemma PerformPc<M>(u: World<M>, s: Machine<M>, pc: nat, e: Effect)
    requires s.Valid()
    ensures Perform(u, s.(pc := pc), e) == Perform(u, s, e).(pc := pc)
  {
  }

  /** Registers and memory after a cycle, seen drained: the old ones, with the executed effect. */
  lemma DataStep<M>(u: World<M>, s: Pipe, mem: M, data: DataOutcome, fetch: FetchOutcome)
    requires HandlersOk(u) && Shape(s) && s.w.stall == 0 && HonestData(u, s, mem, data)
    ensures var t := Cycle(u.exec, s, data, fetch);
      var a := Abs(u, s, mem);
      var b := Abs(u, t, NextMem(u, s, mem));
      && t.w.stall == 0
      && b.(pc := 0) == Perform(u, a, if Executes(s) then Run(u.exec, s.x).effect else NoEffect).(pc := 0)
      && b.regs == Retired(u, s, mem).regs
  {
    var t := Cycle(u.exec, s, data, fetch);
    MemoryDrains(u, s, mem, data);
    ExecuteQueues(u, s);
    var e := if Executes(s) then Run(u.exec, s.x).effect else NoEffect;
    var file := Writeback(s.regs, s.w);
    PerformPc(u, Machine(NextToExecute(s), file, mem), 0, PendingEffect(s.m));
    PerformPc(u, Abs(u, s, mem), 0, e);
    PerformPc(u, Machine(NextToExecute(t), t.regs, NextMem(u, s, mem)), 0, e);
    PerformPc(u, Machine(NextToExecute(t), Writeback(t.regs, t.w), NextMem(u, s, mem)), 0, e);
  }

  lemma PredictOk<M>(u: World<M>, table: seq<Predictor.Entry>, pc: nat)
    requires Predictor.Valid(table) && Trained(u, table) && u.code(pc) == 0
    ensures Predictor.Predict(table, pc) == Predictor.NextPc(pc)
  {
  }

  lemma TrainedKept<M>(u: World<M>, s: Pipe)
    requires Shape(s) && Trained(u, s.table) && Path(u, s)
    ensures Trained(u, ExecuteStage(u.exec, s).table)
  {
  }

  /** The chain of program counters after a cycle, and where execution continues. */
  lemma PathStep<M>(u: World<M>, s: Pipe, data: DataOutcome, fetch: FetchOutcome)
    requires Shape(s) && s.w.stall == 0 && Trained(u, s.table) && Path(u, s) && HonestFetch(u, s, fetch)
    requires !(Mispredicts(u.exec, s) && DecodeActive(s) && DecodeWaits(s))
    ensures var t := Cycle(u.exec, s, data, fetch);
      && Path(u, t) && Trained(u, t.table)
      && NextToExecute(t) == if Executes(s) then Run(u.exec, s.x).nextPc else NextToExecute(s)
  {
    TrainedKept(u, s);
    if fetch.Fetched? && u.code(FetchPc(u.exec, s)) == 0 {
      PredictOk(u, ExecuteStage(u.exec, s).table, FetchPc(u.exec, s));
    }
  }

  lemma OperandsStep<M>(u: World<M>, s: Pipe, mem: M, data: DataOutcome, fetch: FetchOutcome)
    requires HandlersOk(u) && Coherent(u, s, mem) && Smooth(u, s, mem, data, fetch)
    ensures Operands(u, Cycle(u.exec, s, data, fetch), NextMem(u, s, mem))
  {
    DataStep(u, s, mem, data, fetch);
    if Issues(s) {
      var q := DecodeRegs(s.d.instruction);
      if q.rs1 != -1 { OperandIsRetired(u, s, mem, q.rs1); }
      if q.rs2 != -1 { OperandIsRetired(u, s, mem, q.rs2); }
    }
  }

  /** What X executes is what the sequential machine executes next. */
  lemma ExecutesNext<M>(u: World<M>, s: Pipe, mem: M)
    requires Coherent(u, s, mem) && Executes(s)
    ensures var a := Abs(u, s, mem);
      var e := Run(u.exec, s.x);
      a.pc == s.x.pc && Step(u, a) == Perform(u, a, e.effect).(pc := e.nextPc)
  {
  }

  /** The refinement step: a smooth cycle is one step of the sequential machine when execute runs
      an instruction, and no step at all otherwise. */
  lemma CycleRefines<M>(u: World<M>, s: Pipe, mem: M, data: DataOutcome, fetch: FetchOutcome)
    requires HandlersOk(u) && Coherent(u, s, mem) && Smooth(u, s, mem, data, fetch)
    ensures var t := Cycle(u.exec, s, data, fetch);
      var a := Abs(u, s, mem);
      && Coherent(u, t, NextMem(u, s, mem))
      && Abs(u, t, NextMem(u, s, mem)) == if Executes(s) then Step(u, a) else a
  {
    ShapeKept(u, s, data, fetch);
    DataStep(u, s, mem, data, fetch);
    PathStep(u, s, data, fetch);
    OperandsStep(u, s, mem, data, fetch);
    if Executes(s) {
      ExecutesNext(u, s, mem);
    }
  }

  // ---------------------------------------------------------------- runs

  function SmoothRun<M>(u: World<M>, s: Pipe, mem: M, ins: seq<(DataOutcome, FetchOutcome)>): (r: (Pipe, M))
    requires s.Valid()
    ensures r.0.Valid()
    decreases |ins|
  {
    if ins == [] then (s, mem)
    else SmoothRun(u, Cycle(u.exec, s, ins[0].0, ins[0].1), NextMem(u, s, mem), ins[1..])
  }

  ghost predicate AllSmooth<M>(u: World<M>, s: Pipe, mem: M, ins: seq<(DataOutcome, FetchOutcome)>)
    requires s.Valid()
    decreases |ins|
  {
    ins == [] ||
    (Smooth(u, s, mem, ins[0].0, ins[0].1)
     && AllSmooth(u, Cycle(u.exec, s, ins[0].0, ins[0].1), NextMem(u, s, mem), ins[1..]))
  }

  /** The program counters of the instructions executed in a run, in order. */
  function ExecutedPcs(exec: Handlers, s: Pipe, ins: seq<(DataOutcome, FetchOutcome)>): seq<nat>
    requires s.Valid()
    decreases |ins|
  {
    if ins == [] then []
    else (if Executes(s) then [s.x.pc] else []) + ExecutedPcs(exec, Cycle(exec, s, ins[0].0, ins[0].1), ins[1..])
  }

  /** The sequential machine for n steps, and the program counters it visits. */
  function Steps<M>(u: World<M>, a: Machine<M>, n: nat): (r: Machine<M>)
    requires a.Valid()
    ensures r.Valid()
    decreases n
  {
    if n == 0 then a else Steps(u, Step(u, a), n - 1)
  }

  /** n steps lead from `a` to `b`. */
  ghost predicate StepsTo<M>(u: World<M>, a: Machine<M>, n: nat, b: Machine<M>)
    requires a.Valid()
    decreases n
  {
    if n == 0 then a == b else StepsTo(u, Step(u, a), n - 1, b)
  }

  /** One step, or none, before n more. */
  lemma StepsToBefore<M>(u: World<M>, a: Machine<M>, c: Machine<M>, n: nat, k: nat, b: Machine<M>)
    requires a.Valid() && k <= n <= k + 1 && c == (if n > k then Step(u, a) else a) && StepsTo(u, c, k, b)
    ensures StepsTo(u, a, n, b)
  {
  }

  function StepPcs<M>(u: World<M>, a: Machine<M>, n: nat): (r: seq<nat>)
    requires a.Valid()
    ensures |r| == n
    decreases n
  {
    if n == 0 then [] else [a.pc] + StepPcs(u, Step(u, a), n - 1)
  }

  /** Pipeline refinement and path correctness, for any predictor contents that predict no jump from
      a zero word: over every smooth run, through bubbles, stalls and squashes, the pipeline executes
      exactly the instructions of the sequential machine, in order, none lost, repeated or from a wrong
      path, and its drained state is the sequential machine's after as many steps. */
  lemma {:induction false} PipelineRefines<M>(u: World<M>, s: Pipe, mem: M, ins: seq<(DataOutcome, FetchOutcome)>)
    requires HandlersOk(u) && Coherent(u, s, mem) && AllSmooth(u, s, mem, ins)
    ensures var pcs := ExecutedPcs(u.exec, s, ins);
      var (t, mem') := SmoothRun(u, s, mem, ins);
      && Coherent(u, t, mem')
      && pcs == StepPcs(u, Abs(u, s, mem), |pcs|)
      && Abs(u, t, mem') == Steps(u, Abs(u, s, mem), |pcs|)
    decreases |ins|
  {
    if ins != [] {
      CycleRefines(u, s, mem, ins[0].0, ins[0].1);
      var t := Cycle(u.exec, s, ins[0].0, ins[0].1);
      PipelineRefines(u, t, NextMem(u, s, mem), ins[1..]);
      var rest := ExecutedPcs(u.exec, t, ins[1..]);
      if Executes(s) {
        ExecutesNext(u, s, mem);
        assert ExecutedPcs(u.exec, s, ins) == [s.x.pc] + rest;
      } else {
        assert ExecutedPcs(u.exec, s, ins) == rest;
      }
    }
  }

  /** Smooth but for register 0. */
  ghost predicate SmoothButZero<M>(u: World<M>, s: Pipe, mem: M, data: DataOutcome, fetch: FetchOutcome)
    requires s.Valid()
  {
    HonestData(u, s, mem, data) && HonestFetch(u, s, fetch)
        && !(Mispredicts(u.exec, s) && DecodeActive(s) && DecodeWaits(s))
  }

  ghost predicate AllSmoothButZero<M>(u: World<M>, s: Pipe, mem: M, ins: seq<(DataOutcome, FetchOutcome)>)
    requires s.Valid()
    decreases |ins|
  {
    ins == [] ||
    (SmoothButZero(u, s, mem, ins[0].0, ins[0].1)
     && AllSmoothButZero(u, Cycle(u.exec, s, ins[0].0, ins[0].1), NextMem(u, s, mem), ins[1..]))
  }

  /** The program writes register 0 nowhere. */
  ghost predicate ClearProgram<M>(u: World<M>) {
    forall pc :: u.code(pc) != 0 ==> Clear(u.exec, u.code(pc))
  }

  lemma {:induction false} ClearRunIsSmooth<M>(u: World<M>, s: Pipe, mem: M, ins: seq<(DataOutcome, FetchOutcome)>)
    requires HandlersOk(u) && Shape(s) && ZeroQuiet(u.exec, s) && ClearProgram(u) && AllSmoothButZero(u, s, mem, ins)
    ensures AllSmooth(u, s, mem, ins)
    decreases |ins|
  {
    if ins != [] {
      ZeroQuietIsSafe(u.exec, s);
      ShapeKept(u, s, ins[0].0, ins[0].1);
      ZeroQuietKept(u, s, ins[0].0, ins[0].1);
      ClearRunIsSmooth(u, Cycle(u.exec, s, ins[0].0, ins[0].1), NextMem(u, s, mem), ins[1..]);
    }
  }

  /** Refinement for programs that leave register 0 alone: no condition on what is forwarded is needed. */
  lemma ClearProgramRefines<M>(u: World<M>, s: Pipe, mem: M, ins: seq<(DataOutcome, FetchOutcome)>)
    requires HandlersOk(u) && Coherent(u, s, mem) && ZeroQuiet(u.exec, s) && ClearProgram(u)
    requires AllSmoothButZero(u, s, mem, ins)
    ensures var pcs := ExecutedPcs(u.exec, s, ins);
      var (t, mem') := SmoothRun(u, s, mem, ins);
      && pcs == StepPcs(u, Abs(u, s, mem), |pcs|)
      && Abs(u, t, mem') == Steps(u, Abs(u, s, mem), |pcs|)
  {
    ClearRunIsSmooth(u, s, mem, ins);
    PipelineRefines(u, s, mem, ins);
  }

  // ---------------------------------------------------------------- zero words

  /** A zero word is executed without looking at its prediction: the next word follows it exactly when it
      was predicted to fall through. */
  lemma ZeroWordKeepsPathIff<M>(u: World<M>, s: Pipe, data: DataOutcome, fetch: FetchOutcome)
    requires Shape(s) && Executes(s) && s.x.instruction == 0 && s.x.newPc == AfterX(s) && HonestFetch(u, s, fetch)
    ensures NextToExecute(Cycle(u.exec, s, data, fetch)) == Predictor.NextPc(s.x.pc)
        <==> s.x.newPc == Predictor.NextPc(s.x.pc)
  {
  }

  /** What is predicted for a fetched word is the table's prediction, through decode into X. */
  lemma PredictionReachesX(exec: Handlers, s: Pipe, data: DataOutcome, i: nat, data': DataOutcome, fetch': FetchOutcome)
    requires s.Valid()
    ensures var s1 := Cycle(exec, s, data, Fetched(i));
      var s2 := Cycle(exec, s1, data', fetch');
      s2.x.notStalled ==>
        && s2.x.pc == FetchPc(exec, s)
        && s2.x.newPc == Predictor.Predict(ExecuteStage(exec, s).table, FetchPc(exec, s))
  {
  }

  /** A table left over from another program: branch 0 to 64, strongly taken. */
  function StaleTable(): (t: seq<Predictor.Entry>)
    ensures Predictor.Valid(t)
  {
    Predictor.Initial()[0 := Predictor.Entry(0, 64, 3)]
  }

  /** With it, a program of zero words goes from 0 to 64 and not to 4. */
  lemma StaleTableLeavesPath(exec: Handlers, s: Pipe)
    requires s.Valid() && s.pc == 0 && s.table == StaleTable()
    requires !s.d.notStalled && !s.x.notStalled && s.m.tainted == 0 && s.w.stall == 0 && s.w.tainted == 0
    requires s.x.regs == NO_REGS && s.m.readWrite == NOP
    ensures var ins := [(Stored, Fetched(0)), (Stored, Fetched(0)), (Stored, Fetched(0))];
      var t := CycleAll(exec, s, ins);
      ExecutedPcs(exec, s, ins) == [0] && NextToExecute(t) == 64 != Predictor.NextPc(0)
  {
    var i := (Stored, Fetched(0));
    var s1 := Cycle(exec, s, i.0, i.1);
    assert s1.d == s.d.(pc := 0, newPc := 64, instruction := 0, notStalled := true, willBeStalled := 0) && s1.pc == 64;
    var s2 := Cycle(exec, s1, i.0, i.1);
    assert s2.x.notStalled && s2.x.pc == 0 && s2.x.newPc == 64 && s2.x.instruction == 0 && s2.d.pc == 64;
    var s3 := Cycle(exec, s2, i.0, i.1);
    assert [i, i, i][1..] == [i, i] && [i, i][1..] == [i] && [i][1..] == [];
    assert CycleAll(exec, s, [i, i, i]) == CycleAll(exec, s1, [i, i]) == CycleAll(exec, s2, [i]) == s3;
    assert ExecutedPcs(exec, s2, [i]) == [0] + ExecutedPcs(exec, s3, []);
  }

  // ---------------------------------------------------------------- the two cycles that leave the path

  /** A mispredicted instruction's successor is executed next exactly when decode does not wait in
      the same cycle; waiting puts the wrong-path program counter back. */
  lemma MispredictRedirectsIff<M>(u: World<M>, s: Pipe, data: DataOutcome, fetch: FetchOutcome)
    requires Shape(s) && s.w.stall == 0 && Trained(u, s.table) && Path(u, s) && HonestFetch(u, s, fetch)
    requires Mispredicts(u.exec, s)
    ensures NextToExecute(Cycle(u.exec, s, data, fetch)) == Run(u.exec, s.x).nextPc
      <==> !(DecodeActive(s) && DecodeWaits(s))
  {
    if !(DecodeActive(s) && DecodeWaits(s)) {
      PathStep(u, s, data, fetch);
    }
  }

  /** A fetch that stalls in translation keeps the path exactly when D was empty, or held an instruction
      predicted to jump to itself in a cycle without mispredict; otherwise D is decoded a second time. */
  lemma FetchTlbStallKeepsPathIff<M>(u: World<M>, s: Pipe, data: DataOutcome, status: byte)
    requires Shape(s) && s.w.stall == 0 && Trained(u, s.table) && Path(u, s)
    requires !(Mispredicts(u.exec, s) && DecodeActive(s) && DecodeWaits(s))
    ensures var t := Cycle(u.exec, s, data, FetchTlbStall(status));
      (Path(u, t) && NextToExecute(t) == if Executes(s) then Run(u.exec, s.x).nextPc else NextToExecute(s))
      <==> !s.d.notStalled || (!Mispredicts(u.exec, s) && s.pc == s.d.pc)
  {
  }

  // ---------------------------------------------------------------- replay

  /** A stalled load, or a store waiting for its translation, is presented again exactly two cycles later
      with nothing changed but its status; in between nothing executes or retires, and the memory stage
      touches neither translation buffer nor cache, whatever it would find there. */
  lemma ReplayIntegrity(exec: Handlers, s: Pipe, data: DataOutcome, fetch: FetchOutcome, data': DataOutcome,
      fetch': FetchOutcome)
    requires s.Valid() && s.w.tainted == 0
    requires (s.m.readWrite == LOAD && Stalls(data)) || (s.m.readWrite == STORE && data.DataTlbStall?)
    ensures var s1 := Cycle(exec, s, data, fetch);
      var s2 := Cycle(exec, s1, data', fetch');
      && s2.m == Replay(s.m, data).(tainted := 1)
      && s2.m.(tainted := s.m.tainted, wasStalled := s.m.wasStalled, stallStatus := s.m.stallStatus) == s.m
      && !s1.w.op && !s2.w.op && s2.regs == s1.regs == Writeback(s.regs, s.w)
      && !Executes(s1) && s1.w.tainted > 0 && s2.w == MemoryStage(s1.w, s1.m, Stored)
      && s2.w.stall == 0 && s2.w.tainted == 0
  {
  }

  /** A store that waits for the cache is replayed as well, but does not hold back its successor:
      the younger instruction retires first exactly in this case. */
  lemma YoungerRetiresFirstIff(exec: Handlers, s: Pipe, data: DataOutcome, fetch: FetchOutcome, data': DataOutcome,
      fetch': FetchOutcome)
    requires s.Valid() && s.w.tainted == 0 && s.w.stall == 0 && Stalls(data)
    requires s.m.readWrite == LOAD || s.m.readWrite == STORE
    requires ExecuteStage(exec, s).m.readWrite == REGISTER
    ensures var s1 := Cycle(exec, s, data, fetch);
      var s2 := Cycle(exec, s1, data', fetch');
      && s2.m == Replay(s.m, data).(tainted := 1)
      && (s2.w.op <==> s.m.readWrite == STORE && data.DataMiss?)
      && (s2.w.op ==> s2.w.reg == s1.m.reg && s2.w.value == s1.m.value)
  {
  }
}
