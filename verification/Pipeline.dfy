/** The five-stage pipeline of riscv_virtualizer.c, one cycle as the simulator loop runs it:
    writeback, memory, execute, decode, fetch, then every stage register is replaced.
    A stage that leaves a field of its new register alone keeps the current one, because the
    loop's new registers are the copies it made them from. */
module Pipeline {
  import opened Words
  import Predictor

  // ---------------------------------------------------------------- instructions

  const ONES: Word := [255, 255, 255, 255, 255, 255, 255, 255]
  const ZERO: Word := [0, 0, 0, 0, 0, 0, 0, 0]

  /** What an instruction handler asks of the stages behind it. */
  datatype Effect =
    | NoEffect
    | WriteReg(reg: nat, value: Word)
    | LoadMem(reg: nat, address: nat, size: nat, signExtend: bool)
    | StoreMem(address: nat, size: nat, value: Word)

  datatype Executed = Executed(nextPc: nat, effect: Effect)

  /** The dispatch tables and handlers, as one function of the instruction, its pc and its operands. */
  type Handlers = (nat, nat, Word, Word) -> Executed

  /** The registers an instruction names, -1 for none. */
  datatype Regs = Regs(rs1: int, rs2: int, rd: int)

  const NO_REGS := Regs(-1, -1, -1)

  function DecodeRegs(instruction: nat): (r: Regs)
    ensures -1 <= r.rs1 < 32 && -1 <= r.rs2 < 32 && -1 <= r.rd < 32
    ensures r.rs1 == -1 ==> r.rs2 == -1
  {
    var opcode := instruction % 128;
    var rd, rs1, rs2 := instruction / 128 % 32, instruction / 0x8000 % 32, instruction / 0x10_0000 % 32;
    if opcode in {0x17, 0x37, 0x6F} then Regs(-1, -1, rd)
    else if opcode in {0x23, 0x63} then Regs(rs1, rs2, -1)
    else if opcode in {0x33, 0x3B} then Regs(rs1, rs2, rd)
    else Regs(rs1, -1, rd)
  }

  // ---------------------------------------------------------------- stage registers

  datatype DReg = DReg(pc: nat, newPc: nat, instruction: nat, notStalled: bool, willBeStalled: byte, tlbStatus: byte)

  datatype XReg = XReg(pc: nat, newPc: nat, instruction: nat, notStalled: bool, v1: Word, v2: Word, regs: Regs)

  const NOP := 0
  const STORE := 1
  const LOAD := 2
  const REGISTER := 3

  datatype MReg = MReg(
    address: nat, size: nat, readWrite: nat, signExtend: bool, reg: nat, value: Word,
    tainted: nat, wasStalled: nat, stallStatus: byte, pc: nat)

  datatype WReg = WReg(reg: nat, value: Word, op: bool, stall: nat, tlbStatus: byte, tainted: nat, memory: MReg)

  datatype Pipe = Pipe(pc: nat, d: DReg, x: XReg, m: MReg, w: WReg, regs: seq<Word>, table: seq<Predictor.Entry>) {
    predicate Valid() {
      |regs| == 32 && Predictor.Valid(table)
    }
  }

  // ---------------------------------------------------------------- outcomes of the memory system

  datatype FetchOutcome =
    | FetchTlbStall(status: byte)
    | FetchMiss(code: byte)
    | Fetched(instruction: nat)

  datatype DataOutcome =
    | DataTlbStall(status: byte)
    | DataMiss(code: byte)
    | Loaded(bytes: seq<byte>)
    | Stored

  // ---------------------------------------------------------------- the register file

  function ReadReg(regs: seq<Word>, r: nat): Word
    requires |regs| == 32
  {
    if r % 32 > 0 then regs[r % 32] else ZERO
  }

  function WriteRegFile(regs: seq<Word>, r: nat, value: Word): (s: seq<Word>)
    requires |regs| == 32
    ensures |s| == 32
  {
    regs[r % 32 := value]
  }

  function Writeback(regs: seq<Word>, w: WReg): (s: seq<Word>)
    requires |regs| == 32
    ensures |s| == 32
  {
    if w.op then WriteRegFile(regs, w.reg, w.value) else regs
  }

  // ---------------------------------------------------------------- memory stage

  /** The test `value & (1 << (8 * size - 1))`; for four bytes the int constant sign-extends. */
  predicate SignTest(value: Word, size: nat) {
    if size == 1 then value[0] >= 128
    else if size == 2 then value[1] >= 128
    else if size == 4 then value[3] >= 128 || exists i :: 4 <= i < 8 && value[i] != 0
    else false
  }

  /** A loaded value: the low bytes replaced, the others kept, then sign-extended. */
  function LoadedValue(old_: Word, bytes: seq<byte>, size: nat, signExtend: bool): Word {
    var value: Word := Overlay(old_, bytes);
    if signExtend && size <= 8 && SignTest(value, size) then value[..size] + Repeat(255, 8 - size) else value
  }

  function Emptied(w: WReg): WReg {
    w.(value := ZERO, reg := 0, op := false)
  }

  /** The register replayed two cycles later: the stalled instruction with its new status. */
  function Replay(m: MReg, outcome: DataOutcome): MReg {
    match outcome
    case DataTlbStall(status) => m.(stallStatus := status, wasStalled := 1)
    case DataMiss(code) => m.(stallStatus := 0xFF, wasStalled := if code == 2 then 2 else 1)
    case _ => m
  }

  predicate Stalls(outcome: DataOutcome) {
    outcome.DataTlbStall? || outcome.DataMiss?
  }

  function MemoryStage(w: WReg, m: MReg, outcome: DataOutcome): WReg {
    if w.tainted > 0 then
      Emptied(w).(stall := 0, tainted := w.tainted - 1)
    else if m.readWrite == REGISTER then
      w.(tainted := 0, reg := m.reg, value := m.value, op := true, stall := 0)
    else if m.readWrite == LOAD then
      match outcome
      case DataTlbStall(status) =>
        Emptied(w).(stall := 2, tlbStatus := status, tainted := 1, memory := Replay(m, outcome))
      case DataMiss(code) =>
        Emptied(w).(stall := if code == 2 then 4 else 1, tainted := 1, memory := Replay(m, outcome))
      case Loaded(bytes) =>
        w.(tainted := 0, value := LoadedValue(w.value, bytes, m.size, m.signExtend), reg := m.reg, op := true,
            stall := 0)
      case Stored => Emptied(w).(tainted := 0, stall := 0)
    else if m.readWrite == STORE && outcome.DataTlbStall? then
      Emptied(w).(stall := 3, tlbStatus := outcome.status, tainted := 1, memory := Replay(m, outcome))
    else if m.readWrite == STORE && outcome.DataMiss? then
      // Unlike every other stall, this one does not taint the instruction behind it.
      Emptied(w).(stall := if outcome.code == 2 then 5 else 1, tainted := 0, memory := Replay(m, outcome))
    else
      Emptied(w).(tainted := 0, stall := 0)
  }

  // ---------------------------------------------------------------- execute stage

  function WithEffect(m: MReg, e: Effect): MReg {
    match e
    case NoEffect => m
    case WriteReg(r, v) => m.(readWrite := REGISTER, reg := r, value := v)
    case LoadMem(r, a, n, sx) => m.(readWrite := LOAD, address := a, size := n, reg := r, signExtend := sx)
    case StoreMem(a, n, v) => m.(readWrite := STORE, address := a, size := n, value := v, signExtend := false)
  }

  /** The execute stage runs a handler: the slot holds an instruction that is neither squashed nor the zero word. */
  predicate Executes(s: Pipe) {
    s.w.stall == 0 && s.x.notStalled && s.m.tainted == 0
  }

  function Run(exec: Handlers, x: XReg): Executed {
    if x.instruction == 0 then Executed(x.newPc, NoEffect)
    else exec(x.instruction, x.pc, x.v1, x.v2)
  }

  predicate Mispredicts(exec: Handlers, s: Pipe) {
    Executes(s) && Run(exec, s.x).nextPc != s.x.newPc
  }

  datatype ExecuteResult = ExecuteResult(m: MReg, pc: nat, table: seq<Predictor.Entry>)

  function ExecuteStage(exec: Handlers, s: Pipe): (r: ExecuteResult)
    requires s.Valid()
    ensures Predictor.Valid(r.table)
  {
    var m := s.m.(wasStalled := 0, tainted := 0, readWrite := NOP, pc := s.x.pc);
    if s.w.stall != 0 then
      ExecuteResult(s.w.memory.(tainted := 1), s.w.memory.pc, s.table)
    else if !s.x.notStalled then
      ExecuteResult(m, s.pc, s.table)
    else if s.m.tainted > 0 then
      ExecuteResult(m.(tainted := s.m.tainted - 1), s.pc, s.table)
    else if s.x.instruction == 0 then
      ExecuteResult(m, s.pc, s.table)
    else
      var e := exec(s.x.instruction, s.x.pc, s.x.v1, s.x.v2);
      var miss := e.nextPc != s.x.newPc;
      ExecuteResult(
        WithEffect(m, e.effect).(tainted := if miss then 1 else 0),
        if miss then e.nextPc else s.pc,
        if e.nextPc != Predictor.NextPc(s.x.pc) then Predictor.Update(s.table, s.x.pc, e.nextPc, false) else s.table)
  }

  // ---------------------------------------------------------------- decode stage

  /** Where an operand comes from, by register number. */
  datatype Source = Wait | Forward(value: Word) | FromFile

  function Forwarded(x: XReg, m: MReg, w: WReg, r: nat): Source {
    if x.regs.rd == r then Wait
    else if m.readWrite == REGISTER && m.reg == r then Forward(m.value)
    else if w.reg == r then Forward(w.value)
    else FromFile
  }

  function Operand(x: XReg, m: MReg, w: WReg, file: seq<Word>, r: nat): Word
    requires |file| == 32
  {
    match Forwarded(x, m, w, r)
    case Forward(v) => v
    case _ => ReadReg(file, r)
  }

  /** Decode waits: a load in the memory stage names one of its registers, or the execute stage
      holds one of its sources. With one source, register 0 is looked up as the other. */
  predicate DecodeWaits(s: Pipe) {
    var q := DecodeRegs(s.d.instruction);
    || (s.m.readWrite == LOAD && (s.m.reg == q.rs1 || s.m.reg == q.rs2 || s.m.reg == q.rd))
    || (q.rs1 != -1 && (s.x.regs.rd == q.rs1 || s.x.regs.rd == if q.rs2 == -1 then 0 else q.rs2))
  }

  predicate DecodeActive(s: Pipe) {
    s.d.notStalled && s.w.stall == 0
  }

  datatype DecodeResult = DecodeResult(x: XReg, pc: nat)

  /** `file` is the register file after writeback, `pc` the program counter after execute. */
  function DecodeStage(s: Pipe, file: seq<Word>, pc: nat): DecodeResult
    requires |file| == 32
  {
    if !DecodeActive(s) then
      DecodeResult(s.x.(notStalled := false), pc)
    else
      var q := DecodeRegs(s.d.instruction);
      var x := s.x.(pc := s.d.pc, newPc := s.d.newPc, instruction := s.d.instruction, notStalled := true);
      if DecodeWaits(s) then
        DecodeResult(x.(v1 := ONES, v2 := ONES, regs := NO_REGS, notStalled := false), s.d.pc)
      else
        DecodeResult(x.(
          regs := q,
          v1 := if q.rs1 == -1 then ONES else Operand(s.x, s.m, s.w, file, q.rs1),
          v2 := if q.rs2 == -1 then ONES else Operand(s.x, s.m, s.w, file, q.rs2)), pc)
  }

  // ---------------------------------------------------------------- fetch stage

  datatype FetchResult = FetchResult(d: DReg, pc: nat)

  function FetchStage(d: DReg, pc: nat, table: seq<Predictor.Entry>, outcome: FetchOutcome): FetchResult
    requires Predictor.Valid(table)
  {
    match outcome
    case FetchTlbStall(status) => FetchResult(d.(willBeStalled := 2, tlbStatus := status), pc)
    case FetchMiss(code) => FetchResult(DReg(0, 0, 0, false, if code == 2 then 3 else 1, 0xFF), pc)
    case Fetched(instruction) =>
      var next := Predictor.Predict(table, pc);
      FetchResult(d.(pc := pc, newPc := next, instruction := instruction, notStalled := true, willBeStalled := 0), next)
  }

  // ---------------------------------------------------------------- a cycle

  /** The program counter fetch sees: after execute and decode. */
  function FetchPc(exec: Handlers, s: Pipe): nat
    requires s.Valid()
  {
    DecodeStage(s, Writeback(s.regs, s.w), ExecuteStage(exec, s).pc).pc
  }

  function Cycle(exec: Handlers, s: Pipe, data: DataOutcome, fetch: FetchOutcome): (r: Pipe)
    requires s.Valid()
    ensures r.Valid()
  {
    var file := Writeback(s.regs, s.w);
    var w := MemoryStage(s.w, s.m, data);
    var e := ExecuteStage(exec, s);
    var dec := DecodeStage(s, file, e.pc);
    var f := FetchStage(s.d, dec.pc, e.table, fetch);
    Pipe(f.pc, f.d, dec.x, e.m, w, file, e.table)
  }
}
