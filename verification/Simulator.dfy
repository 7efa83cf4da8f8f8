/** The simulator as it runs: stage registers filled in place, global units updated on the way. */
module Simulators {
  import opened Words
  import opened Memory
  import opened MemoryUnits
  import opened Pipeline
  import Predictor
  import Tlb
  import TlbUnits
  import Cache
  import CacheUnits
  import Core

  /** The loop `value |= 0xFF << 8 * i` for i from size to 7. */
  method SignExtend(value: Word, size: nat) returns (r: Word)
    requires size <= 8
    ensures r == value[..size] + Repeat(255, 8 - size)
  {
    r := value;
    for i := size to 8
      invariant forall j :: 0 <= j < 8 ==> r[j] == if size <= j < i then 255 else value[j]
    {
      r := r[i := 255];
    }
    var want := value[..size] + Repeat(255, 8 - size);
    assert forall j :: 0 <= j < 8 ==> r[j] == want[j];
  }

  method NewFile() returns (file: array<Word>)
    ensures fresh(file) && file.Length == 32 && file[..] == Core.ResetPipe().regs
  {
    file := new Word[32](_ => ZERO);
  }

  class Simulator {
    const exec: Handlers
    const ptbr: nat
    const mem: MemoryUnit
    const itlb: TlbUnits.TlbUnit
    const dtlb: TlbUnits.TlbUnit
    const icache: CacheUnits.CacheUnit
    const dcache: CacheUnits.CacheUnit
    const predictor: Predictor.PredictorUnit
    const registers: array<Word>
    var pc: nat
    var d: DReg
    var x: XReg
    var m: MReg
    var w: WReg
    var newD: DReg
    var newX: XReg
    var newM: MReg
    var newW: WReg

    ghost predicate Valid()
      reads icache.rows, dcache.rows
    {
      && mem.Valid() && itlb.Valid() && dtlb.Valid() && icache.Valid() && dcache.Valid() && predictor.Valid()
      && registers.Length == 32
      && icache.kind == Cache.Instruction && dcache.kind == Cache.Data
      && itlb != dtlb && itlb.entries != dtlb.entries && icache != dcache && icache.rows != dcache.rows
    }

    /** The new registers start out as copies of the current ones. */
    ghost predicate Fresh()
      reads this
    {
      newD == d && newX == x && newM == m && newW == w
    }

    ghost function Stages(): Pipe
      reads this, registers, predictor.table
    {
      Pipe(pc, d, x, m, w, registers[..], predictor.table[..])
    }

    ghost function View(): Core.State
      reads this, registers, predictor.table, mem, mem.bytes, mem.slots, itlb, itlb.entries, dtlb, dtlb.entries
      reads icache.rows, dcache.rows
    {
      Core.State(Stages(), itlb.View(), dtlb.View(), icache.View(), dcache.View(), mem.View())
    }

    /** Power-on: everything zero, a 512-row instruction cache and a 2048-set data cache. */
    constructor (exec: Handlers, ptbr: nat, memorySize: nat, readLatency: nat, writeLatency: nat)
      ensures Valid() && Fresh() && View() == Core.PowerOn(Zeros(memorySize), readLatency, writeLatency)
    {
      this.exec, this.ptbr := exec, ptbr;
      var reset := Core.ResetPipe();
      pc, d, x, m, w := reset.pc, reset.d, reset.x, reset.m, reset.w;
      newD, newX, newM, newW := reset.d, reset.x, reset.m, reset.w;
      var memory := new MemoryUnit(memorySize, readLatency, writeLatency);
      mem := memory;
      var it := new TlbUnits.TlbUnit();
      var dt := new TlbUnits.TlbUnit();
      itlb, dtlb := it, dt;
      var ic := new CacheUnits.CacheUnit(Cache.Instruction, 9);
      var dc := new CacheUnits.CacheUnit(Cache.Data, 11);
      icache, dcache := ic, dc;
      var p := new Predictor.PredictorUnit();
      predictor := p;
      var file := NewFile();
      registers := file;
      new;
      PowerOnIs(memorySize, readLatency, writeLatency);
      assert Stages() == reset;
    }

    // -------------------------------------------------------------- writeback

    method RegisterWrite(r: nat, value: Word)
      requires Valid()
      modifies registers
      ensures registers[..] == WriteRegFile(old(registers[..]), r, value)
    {
      registers[r % 32] := value;
    }

    method RegisterRead(r: nat) returns (value: Word)
      requires Valid()
      ensures value == ReadReg(registers[..], r)
    {
      value := if r % 32 > 0 then registers[r % 32] else ZERO;
    }

    method StageWriteback()
      requires Valid()
      modifies registers
      ensures registers[..] == Pipeline.Writeback(old(registers[..]), w)
    {
      if !w.op {
        return;
      }
      RegisterWrite(w.reg, w.value);
    }

    // -------------------------------------------------------------- memory

    /** Translation and data cache access; None when the program ends here. */
    method DataAccess(junk: Quad) returns (outcome: Option<DataOutcome>)
      requires Valid()
      modifies dtlb, dtlb.entries, dcache.rows, mem, mem.bytes, mem.slots
      ensures match Core.DataAccess(ptbr, old(dtlb.View()), old(dcache.View()), old(mem.View()), m, junk)
        case DataHalted => outcome.None?
        case DataResult(o, t, c, k) => outcome == Some(o) && dtlb.View() == t && dcache.View() == c && mem.View() == k
    {
      var status, pa, aborted := dtlb.GetAddress(ptbr, mem, m.address % TWO32, Core.DataStatus(m), junk);
      if aborted {
        return None;
      }
      if status != Tlb.HIT && status != Tlb.START {
        return Some(DataTlbStall(status));
      }
      var v;
      if m.readWrite == LOAD {
        v := dcache.ReadAccess(mem, pa, m.size, m.wasStalled == 1, status == Tlb.HIT);
      } else {
        v := dcache.WriteAccess(mem, pa, m.value, m.size, m.wasStalled == 1, status == Tlb.HIT);
      }
      match v
      case Ok(bytes) => return Some(if m.readWrite == LOAD then Loaded(bytes) else Stored);
      case Stalled(code) => return Some(DataMiss(code));
      case Aborted => return None;
      case OutOfBounds => return None;
    }

    method Bubble()
      modifies this`newW
      ensures newW == Emptied(old(newW))
    {
      newW := newW.(value := ZERO);
      newW := newW.(reg := 0);
      newW := newW.(op := false);
    }

    method StallFor(outcome: DataOutcome, code: nat, taint: nat)
      requires Stalls(outcome)
      modifies this`newW
      ensures newW == Emptied(old(newW)).(stall := code, tainted := taint, memory := Replay(m, outcome),
        tlbStatus := if outcome.DataTlbStall? then outcome.status else old(newW.tlbStatus))
    {
      newW := newW.(stall := code);
      if outcome.DataTlbStall? {
        newW := newW.(tlbStatus := outcome.status);
      }
      Bubble();
      newW := newW.(tainted := taint);
      newW := newW.(memory := m);
      if outcome.DataTlbStall? {
        newW := newW.(memory := newW.memory.(stallStatus := outcome.status, wasStalled := 1));
      } else {
        newW := newW.(memory := newW.memory.(wasStalled := if outcome.code == 2 then 2 else 1, stallStatus := 0xFF));
      }
    }

    method FinishLoad(bytes: seq<byte>)
      modifies this`newW
      ensures newW == old(newW).(value := LoadedValue(old(newW.value), bytes, m.size, m.signExtend), reg := m.reg,
          op := true, stall := 0)
    {
      newW := newW.(value := Overlay(newW.value, bytes));
      if m.signExtend && m.size <= 8 && SignTest(newW.value, m.size) {
        var v := SignExtend(newW.value, m.size);
        newW := newW.(value := v);
      }
      newW := newW.(reg := m.reg);
      newW := newW.(op := true);
      newW := newW.(stall := 0);
    }

    method StageMemory(junk: Quad) returns (halted: bool)
      requires Valid() && newW == w
      modifies this`newW, dtlb, dtlb.entries, dcache.rows, mem, mem.bytes, mem.slots
      ensures match Core.StageData(ptbr, w, m, old(dtlb.View()), old(dcache.View()), old(mem.View()), junk)
        case DataHalted => halted
        case DataResult(o, t, c, k) =>
          !halted && newW == MemoryStage(w, m, o) && dtlb.View() == t && dcache.View() == c && mem.View() == k
    {
      if w.tainted > 0 {
        Bubble();
        newW := newW.(stall := 0, tainted := w.tainted - 1);
        return false;
      }
      newW := newW.(tainted := 0);
      if m.readWrite == REGISTER {
        newW := newW.(reg := m.reg, value := m.value, op := true, stall := 0);
        return false;
      }
      if m.readWrite == LOAD || m.readWrite == STORE {
        var outcome := DataAccess(junk);
        if outcome.None? {
          return true;
        }
        if Stalls(outcome.value) {
          var code := if outcome.value.DataTlbStall? then (if m.readWrite == LOAD then 2 else 3)
                      else if outcome.value.code != 2 then 1 else if m.readWrite == LOAD then 4 else 5;
          StallFor(outcome.value, code, if m.readWrite == STORE && outcome.value.DataMiss? then 0 else 1);
          return false;
        }
        if m.readWrite == LOAD && outcome.value.Loaded? {
          FinishLoad(outcome.value.bytes);
          return false;
        }
      }
      Bubble();
      newW := newW.(stall := 0);
      return false;
    }

    // -------------------------------------------------------------- execute

    method StageExecute()
      requires Valid() && newM == m
      modifies this`newM, this`pc, predictor.table
      ensures ExecuteResult(newM, pc, predictor.table[..]) == ExecuteStage(exec, old(Stages()))
    {
      if w.stall != 0 {
        newM := w.memory;
        pc := newM.pc;
        newM := newM.(tainted := 1);
        return;
      }
      newM := newM.(wasStalled := 0, tainted := 0, readWrite := NOP);
      newM := newM.(pc := x.pc);
      if !x.notStalled {
        return;
      }
      if m.tainted > 0 {
        newM := newM.(tainted := m.tainted - 1);
        return;
      }
      if x.instruction == 0 {
        return;
      }
      var e := exec(x.instruction, x.pc, x.v1, x.v2);
      newM := WithEffect(newM, e.effect);
      if e.nextPc != x.newPc {
        pc := e.nextPc;
        newM := newM.(tainted := 1);
      }
      if e.nextPc != Predictor.NextPc(x.pc) {
        predictor.UpdateEntry(x.pc, e.nextPc, e.nextPc == Predictor.NextPc(x.pc));
      }
    }

    // -------------------------------------------------------------- decode

    /** One source operand: whether decode must wait for it, and its value. */
    method ForwardedRead(r: nat) returns (wait: bool, value: Word)
      requires Valid()
      ensures wait <==> x.regs.rd == r
      ensures !wait ==> value == Operand(x, m, w, registers[..], r)
    {
      if x.regs.rd == r {
        return true, ZERO;
      } else if m.readWrite == REGISTER && m.reg == r {
        return false, m.value;
      } else if w.reg == r {
        return false, w.value;
      }
      value := RegisterRead(r);
      return false, value;
    }

    method Hold()
      modifies this`newX, this`pc
      ensures newX == old(newX).(v1 := ONES, v2 := ONES, regs := NO_REGS, notStalled := false) && pc == d.pc
    {
      pc := d.pc;
      newX := newX.(v1 := ONES, v2 := ONES);
      newX := newX.(regs := NO_REGS);
      newX := newX.(notStalled := false);
    }

    method StageDecode()
      requires Valid() && newX == x
      modifies this`newX, this`pc
      ensures DecodeResult(newX, pc) == DecodeStage(old(Stages()), registers[..], old(pc))
    {
      if !d.notStalled || w.stall != 0 {
        newX := newX.(notStalled := false);
        return;
      }
      newX := newX.(pc := d.pc, newPc := d.newPc, instruction := d.instruction, notStalled := true);
      var q := DecodeRegs(d.instruction);
      if m.readWrite == LOAD && (m.reg == q.rs1 || m.reg == q.rs2 || m.reg == q.rd) {
        Hold();
        return;
      }
      newX := newX.(regs := q, v1 := ONES, v2 := ONES);
      if q.rs1 == -1 {
        return;
      }
      var wait1, v1 := ForwardedRead(q.rs1);
      var wait2, v2 := ForwardedRead(if q.rs2 == -1 then 0 else q.rs2);
      if wait1 || wait2 {
        Hold();
        return;
      }
      newX := newX.(v1 := v1, v2 := if q.rs2 == -1 then ONES else v2);
    }

    // -------------------------------------------------------------- fetch

    /** Translation and instruction cache access; None when the program ends here. */
    method FetchAccess(junk: Quad) returns (outcome: Option<FetchOutcome>)
      requires Valid()
      modifies itlb, itlb.entries, icache.rows, mem, mem.bytes, mem.slots
      ensures match Core.FetchAccess(ptbr, old(itlb.View()), old(icache.View()), old(mem.View()), d, pc, junk)
        case FetchHalted => outcome.None?
        case FetchAccessResult(o, t, c, k) =>
          outcome == Some(o) && itlb.View() == t && icache.View() == c && mem.View() == k
    {
      var status, pa, aborted :=
        itlb.GetAddress(ptbr, mem, pc % TWO32, if d.willBeStalled == 2 then d.tlbStatus else Tlb.START, junk);
      if aborted {
        return None;
      }
      if status != Tlb.HIT && status != Tlb.START {
        return Some(FetchTlbStall(status));
      }
      var v := icache.ReadAccess(mem, pa, 4, d.willBeStalled == 1, status == Tlb.HIT);
      match v
      case Ok(bytes) => return Some(Fetched(U32(bytes)));
      case Stalled(code) => return Some(FetchMiss(code));
      case Aborted => return None;
      case OutOfBounds => return None;
    }

    method StageFetch(junk: Quad) returns (halted: bool)
      requires Valid() && newD == d
      modifies this`newD, this`pc, itlb, itlb.entries, icache.rows, mem, mem.bytes, mem.slots
      ensures match Core.FetchAccess(ptbr, old(itlb.View()), old(icache.View()), old(mem.View()), d, old(pc), junk)
        case FetchHalted => halted
        case FetchAccessResult(o, t, c, k) =>
          && !halted && FetchResult(newD, pc) == FetchStage(d, old(pc), predictor.table[..], o)
          && itlb.View() == t && icache.View() == c && mem.View() == k
    {
      var outcome := FetchAccess(junk);
      match outcome
      case None => return true;
      case Some(FetchTlbStall(status)) =>
        newD := newD.(willBeStalled := 2);
        newD := newD.(tlbStatus := status);
        return false;
      case Some(FetchMiss(code)) =>
        newD := DReg(0, 0, 0, false, 0, 0);
        newD := newD.(tlbStatus := 0xFF);
        newD := newD.(willBeStalled := if code == 2 then 3 else 1);
        return false;
      case Some(Fetched(instruction)) =>
        newD := newD.(instruction := instruction);
        newD := newD.(pc := pc);
        pc := predictor.PredictAddress(pc);
        newD := newD.(newPc := pc);
        newD := newD.(notStalled := true);
        newD := newD.(willBeStalled := 0);
        return false;
    }

    // -------------------------------------------------------------- the loop

    /** Writeback and memory. */
    method BackEnd(junk: Quad) returns (halted: bool)
      requires Valid() && newW == w
      modifies this`newW, registers, dtlb, dtlb.entries, dcache.rows, mem, mem.bytes, mem.slots
      ensures registers[..] == Pipeline.Writeback(old(registers[..]), w)
      ensures match Core.StageData(ptbr, w, m, old(dtlb.View()), old(dcache.View()),
          old(mem.View()).(stage := Access), junk)
        case DataHalted => halted
        case DataResult(o, t, c, k) =>
          !halted && newW == MemoryStage(w, m, o) && dtlb.View() == t && dcache.View() == c && mem.View() == k
    {
      StageWriteback();
      mem.stage := Access;
      assert mem.View() == old(mem.View()).(stage := Access);
      halted := StageMemory(junk);
    }

    /** Execute and decode, with the register file already written back. */
    method Middle(ghost s: Pipe)
      requires Valid() && newM == m && newX == x
      requires Stages() == s.(regs := registers[..]) && s.Valid()
      modifies this`pc, this`newX, this`newM, predictor.table
      ensures var e := ExecuteStage(exec, s);
        && newM == e.m && predictor.table[..] == e.table
        && DecodeResult(newX, pc) == DecodeStage(s, registers[..], e.pc)
    {
      StageExecute();
      ExecuteIgnoresFile(exec, s, registers[..]);
      ghost var t := Stages();
      StageDecode();
      DecodeIgnoresRest(s, t, registers[..]);
    }

    /** Fetch, then the new registers become the current ones and the memory's cycle ends. */
    method FrontEnd(junk: Quad) returns (halted: bool)
      requires Valid() && newD == d
      modifies this, mem, mem.bytes, mem.slots, itlb, itlb.entries, icache.rows
      ensures match Core.FetchAccess(ptbr, old(itlb.View()), old(icache.View()), old(mem.View()).(stage := Fetch),
          old(d), old(pc), junk)
        case FetchHalted => halted
        case FetchAccessResult(o, t, c, k) =>
          && !halted && FetchResult(d, pc) == FetchStage(old(d), old(pc), predictor.table[..], o)
          && x == old(newX) && m == old(newM) && w == old(newW) && Fresh()
          && itlb.View() == t && icache.View() == c && mem.View() == EndCycle(k)
    {
      mem.stage := Fetch;
      assert mem.View() == old(mem.View()).(stage := Fetch);
      halted := StageFetch(junk);
      if halted { return; }
      d := newD;
      x := newX;
      m := newM;
      w := newW;
      mem.EndCycle();
    }

    /** One cycle: the five stages from the back, the registers copied, completed requests retired. */
    method RunCycle(junk: (Quad, Quad)) returns (halted: bool)
      requires Valid() && Fresh()
      modifies this, registers, predictor.table, mem, mem.bytes, mem.slots
      modifies itlb, itlb.entries, dtlb, dtlb.entries, icache.rows, dcache.rows
      ensures match Core.Cycle(Core.Setting(exec, ptbr), old(View()), junk)
        case None => halted
        case Some(t) => !halted && Valid() && Fresh() && View() == t
    {
      ghost var s := View();
      ghost var g := Core.Setting(exec, ptbr);
      halted := BackEnd(junk.0);
      ghost var data := Core.DataPart(g, s, junk.0);
      assert halted <==> data.DataHalted?;
      if halted { return; }
      halted := FrontHalf(s.pipe, junk.1);
      ghost var fetch := Core.FetchPart(g, s, data.mem, junk.1);
      assert halted <==> fetch.FetchHalted?;
      if halted { return; }
      CycleIs(g, s, junk, data, fetch);
    }

    /** Execute, decode and fetch, with writeback and memory done, and the change of registers. */
    method FrontHalf(ghost s: Pipe, junk: Quad) returns (halted: bool)
      requires Valid() && newD == d && newM == m && newX == x
      requires Stages() == s.(regs := registers[..]) && s.Valid() && registers[..] == Pipeline.Writeback(s.regs, s.w)
      modifies this, predictor.table, mem, mem.bytes, mem.slots, itlb, itlb.entries, icache.rows
      ensures match Core.FetchAccess(ptbr, old(itlb.View()), old(icache.View()), old(mem.View()).(stage := Fetch),
          s.d, FetchPc(exec, s), junk)
        case FetchHalted => halted
        case FetchAccessResult(o, t, c, k) =>
          && !halted && Fresh() && Stages() == Pipeline.Cycle(exec, s, Stored, o).(w := old(newW))
          && itlb.View() == t && icache.View() == c && mem.View() == EndCycle(k)
    {
      Middle(s);
      halted := FrontEnd(junk);
    }

    /** The word at the program counter, read from memory directly, is an EBREAK. */
    method SeesEbreak() returns (b: bool)
      requires Valid()
      ensures b == Core.AtEbreak(View())
    {
      if pc + 4 > mem.bytes.Length {
        return false;
      }
      return U32(mem.bytes[pc..pc + 4]) == Core.EBREAK;
    }

    /** The simulator loop: cycle after cycle, as many as asked for, until an EBREAK is to be fetched. */
    method Run(junk: seq<(Quad, Quad)>) returns (halted: bool)
      requires Valid() && Fresh()
      modifies this, registers, predictor.table, mem, mem.bytes, mem.slots
      modifies itlb, itlb.entries, dtlb, dtlb.entries, icache.rows, dcache.rows
      ensures match Core.Simulate(Core.Setting(exec, ptbr), old(View()), junk)
        case None => halted
        case Some(t) => !halted && Valid() && Fresh() && View() == t
    {
      ghost var g := Core.Setting(exec, ptbr);
      for i := 0 to |junk|
        invariant Valid() && Fresh()
        invariant Core.Simulate(g, old(View()), junk) == Core.Simulate(g, View(), junk[i..])
      {
        var stop := SeesEbreak();
        if stop {
          return false;
        }
        assert junk[i..][0] == junk[i] && junk[i..][1..] == junk[i + 1..];
        halted := RunCycle(junk[i]);
        if halted {
          return;
        }
      }
      return false;
    }
  }

  lemma PowerOnIs(memorySize: nat, readLatency: nat, writeLatency: nat)
    ensures Core.PowerOn(Zeros(memorySize), readLatency, writeLatency) == Core.State(
              Core.ResetPipe(), Tlb.Empty(), Tlb.Empty(), Cache.Empty(Cache.Instruction, 9),
                  Cache.Empty(Cache.Data, 11),
              InitialMem(memorySize, readLatency, writeLatency))
  {
  }

  lemma CycleIs(g: Core.Setting, s: Core.State, junk: (Quad, Quad), data: Core.DataResult,
      fetch: Core.FetchAccessResult)
    requires s.Valid() && data == Core.DataPart(g, s, junk.0) && data.DataResult?
    requires fetch == Core.FetchPart(g, s, data.mem, junk.1) && fetch.FetchAccessResult?
    ensures Core.Cycle(g, s, junk) == Some(Core.State(
              Pipeline.Cycle(g.exec, s.pipe, Stored,
                  fetch.fetched).(w := MemoryStage(s.pipe.w, s.pipe.m, data.outcome)),
              fetch.tlb, data.tlb, fetch.cache, data.cache, EndCycle(fetch.mem)))
  {
  }

  lemma ExecuteIgnoresFile(exec: Handlers, s: Pipe, file: seq<Word>)
    requires s.Valid() && |file| == 32
    ensures ExecuteStage(exec, s.(regs := file)) == ExecuteStage(exec, s)
  {
  }

  lemma DecodeIgnoresRest(s: Pipe, t: Pipe, file: seq<Word>)
    requires |file| == 32 && s.d == t.d && s.x == t.x && s.m == t.m && s.w == t.w
    ensures forall pc :: DecodeStage(s, file, pc) == DecodeStage(t, file, pc)
  {
  }
}
