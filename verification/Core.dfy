/** The whole simulated machine: the pipeline in front of its translation buffers, caches and memory. */
module Core {
  import opened Words
  import opened Memory
  import opened Pipeline
  import Predictor
  import Tlb
  import Cache

  /** What an access of the memory or fetch stage leaves behind; `Halted` when the C program
      exits or leaves its arrays. */
  datatype DataResult =
    | DataResult(outcome: DataOutcome, tlb: Tlb.Table, cache: Cache.Table, mem: Mem)
    | DataHalted

  datatype FetchAccessResult =
    | FetchAccessResult(fetched: FetchOutcome, tlb: Tlb.Table, cache: Cache.Table, mem: Mem)
    | FetchHalted

  /** The memory stage turns to the memory system only for an untainted load or store. */
  predicate WantsData(w: WReg, m: MReg) {
    w.tainted == 0 && (m.readWrite == LOAD || m.readWrite == STORE)
  }

  function DataStatus(m: MReg): byte {
    if m.wasStalled != 0 then m.stallStatus else Tlb.START
  }

  function CacheAnswer(load: bool, t: Tlb.Table, r: Cache.Access): DataResult {
    match r
    case Done(c, m, bytes) => DataResult(if load then Loaded(bytes) else Stored, t, c, m)
    case Stall(c, m, code) => DataResult(DataMiss(code), t, c, m)
    case _ => DataHalted
  }

  /** Translate, then access the data cache: as a follow-up when the instruction waited for memory
      or for its translation, with memory available when the translation needed none. */
  function DataAccess(ptbr: nat, t: Tlb.Table, c: Cache.Table, mem: Mem, m: MReg, junk: Quad): (r: DataResult)
    requires t.Valid() && c.Valid()
    ensures r.DataResult? ==>
      r.tlb.Valid() && r.cache.Valid() && r.cache.SameShape(c) && |r.mem.slots| == |mem.slots|
  {
    match Tlb.GetAddress(ptbr, t, mem, m.address % TWO32, DataStatus(m), junk)
    case Abort => DataHalted
    case Walk(t1, m1, status, pa) =>
      if status != Tlb.HIT && status != Tlb.START then DataResult(DataTlbStall(status), t1, c, m1)
      else if m.readWrite == LOAD then
        CacheAnswer(true, t1, Cache.ReadAccess(c, m1, pa, m.size, m.wasStalled == 1, status == Tlb.HIT))
      else
        CacheAnswer(false, t1, Cache.WriteAccess(c, m1, pa, m.value, m.size, m.wasStalled == 1, status == Tlb.HIT))
  }

  function FetchAccess(ptbr: nat, t: Tlb.Table, c: Cache.Table, mem: Mem, d: DReg, pc: nat,
      junk: Quad): (r: FetchAccessResult)
    requires t.Valid() && c.Valid()
    ensures r.FetchAccessResult? ==>
      r.tlb.Valid() && r.cache.Valid() && r.cache.SameShape(c) && |r.mem.slots| == |mem.slots|
  {
    match Tlb.GetAddress(ptbr, t, mem, pc % TWO32, if d.willBeStalled == 2 then d.tlbStatus else Tlb.START, junk)
    case Abort => FetchHalted
    case Walk(t1, m1, status, pa) =>
      if status != Tlb.HIT && status != Tlb.START then FetchAccessResult(FetchTlbStall(status), t1, c, m1)
      else
        match Cache.ReadAccess(c, m1, pa, 4, d.willBeStalled == 1, status == Tlb.HIT)
        case Done(c1, m2, bytes) => FetchAccessResult(Fetched(U32(bytes)), t1, c1, m2)
        case Stall(c1, m2, code) => FetchAccessResult(FetchMiss(code), t1, c1, m2)
        case _ => FetchHalted
  }

  datatype State = State(
    pipe: Pipe, itlb: Tlb.Table, dtlb: Tlb.Table, icache: Cache.Table, dcache: Cache.Table, mem: Mem)
  {
    predicate Valid() {
      && pipe.Valid() && itlb.Valid() && dtlb.Valid() && icache.Valid() && dcache.Valid() && mem.Valid()
      && icache.kind == Cache.Instruction && dcache.kind == Cache.Data
    }
  }

  /** What is not determined by the state: the handlers and the page-table base. */
  datatype Setting = Setting(exec: Handlers, ptbr: nat)

  /** The memory stage's part of a cycle; nothing is accessed when it has no use for data. */
  function StageData(ptbr: nat, w: WReg, m: MReg, t: Tlb.Table, c: Cache.Table, mem: Mem, junk: Quad): (r: DataResult)
    requires t.Valid() && c.Valid()
    ensures r.DataResult? ==>
      r.tlb.Valid() && r.cache.Valid() && r.cache.SameShape(c) && |r.mem.slots| == |mem.slots|
  {
    if WantsData(w, m) then DataAccess(ptbr, t, c, mem, m, junk) else DataResult(Stored, t, c, mem)
  }

  function DataPart(g: Setting, s: State, junk: Quad): (r: DataResult)
    requires s.Valid()
    ensures r.DataResult? ==>
      r.tlb.Valid() && r.cache.Valid() && r.cache.SameShape(s.dcache) && |r.mem.slots| == |s.mem.slots|
  {
    StageData(g.ptbr, s.pipe.w, s.pipe.m, s.dtlb, s.dcache, s.mem.(stage := Access), junk)
  }

  function FetchPart(g: Setting, s: State, mem: Mem, junk: Quad): (r: FetchAccessResult)
    requires s.Valid()
    ensures r.FetchAccessResult? ==>
      r.tlb.Valid() && r.cache.Valid() && r.cache.SameShape(s.icache) && |r.mem.slots| == |mem.slots|
  {
    FetchAccess(g.ptbr, s.itlb, s.icache, mem.(stage := Fetch), s.pipe.d, FetchPc(g.exec, s.pipe), junk)
  }

  /** One cycle of the simulator loop; None when the program ended in it. */
  function Cycle(g: Setting, s: State, junk: (Quad, Quad)): (r: Option<State>)
    requires s.Valid()
    ensures r.Some? ==> r.value.Valid()
  {
    match DataPart(g, s, junk.0)
    case DataHalted => None
    case DataResult(data, dtlb, dcache, m1) =>
      match FetchPart(g, s, m1, junk.1)
      case FetchHalted => None
      case FetchAccessResult(fetch, itlb, icache, m2) =>
        Some(State(Pipeline.Cycle(g.exec, s.pipe, data, fetch), itlb, dtlb, icache, dcache, EndCycle(m2)))
  }

  /** The pipeline registers and register file at power-on. */
  function ResetPipe(): (p: Pipe)
    ensures p.Valid()
  {
    var m := MReg(0, 0, NOP, false, 0, ZERO, 0, 0, 0, 0);
    Pipe(0, DReg(0, 0, 0, false, 0, 0), XReg(0, 0, 0, false, ZERO, ZERO, Regs(0, 0, 0)), m,
      WReg(0, ZERO, false, 0, 0, 0, m), seq(32, _ => ZERO), Predictor.Initial())
  }

  /** The machine at power-on, with memory loaded: registers zero, translation buffers and caches empty, a
      512-row instruction cache and a 2048-set data cache. */
  function PowerOn(bytes: seq<byte>, readLatency: nat, writeLatency: nat): (s: State)
    ensures s.Valid()
  {
    State(ResetPipe(), Tlb.Empty(), Tlb.Empty(), Cache.Empty(Cache.Instruction, 9), Cache.Empty(Cache.Data, 11),
      InitialMem(|bytes|, readLatency, writeLatency).(bytes := bytes))
  }

  const EBREAK := 0x00100073

  /** The loop ends before a cycle whose program counter, untranslated, names an EBREAK. */
  predicate AtEbreak(s: State) {
    var pc := s.pipe.pc;
    pc + 4 <= |s.mem.bytes| && U32(s.mem.bytes[pc..pc + 4]) == EBREAK
  }

  /** The bytes of the breakpoint instruction. */
  const BREAKPOINT: seq<byte> := [0x73, 0x00, 0x10, 0x00]

  predicate BreakpointAt(bytes: seq<byte>, pc: nat) {
    pc + 4 <= |bytes| && bytes[pc..pc + 4] == BREAKPOINT
  }

  lemma BreakpointIff(s: State)
    ensures AtEbreak(s) <==> BreakpointAt(s.mem.bytes, s.pipe.pc)
  {
    var pc := s.pipe.pc;
    if pc + 4 <= |s.mem.bytes| {
      BreakpointBytes(s.mem.bytes[pc..pc + 4]);
    }
  }

  lemma BreakpointBytes(q: Quad)
    ensures U32(q) == EBREAK <==> q == BREAKPOINT
  {
    if U32(q) == EBREAK {
      assert q[0] == 0x73 && q[1] == 0 && q[2] == 0x10 && q[3] == 0;
    }
  }

  /** At most as many cycles as there are inputs. */
  function Simulate(g: Setting, s: State, junk: seq<(Quad, Quad)>): (r: Option<State>)
    requires s.Valid()
    ensures r.Some? ==> r.value.Valid()
    decreases |junk|
  {
    if junk == [] || AtEbreak(s) then Some(s)
    else
      match Cycle(g, s, junk[0])
      case None => None
      case Some(t) => Simulate(g, t, junk[1..])
  }

  /** The loop stops where the four bytes at the program counter are the breakpoint's, and runs a cycle everywhere
      else, outside memory included. */
  lemma SimulateByBytes(g: Setting, s: State, js: seq<(Quad, Quad)>)
    requires s.Valid()
    ensures BreakpointAt(s.mem.bytes, s.pipe.pc) ==> Simulate(g, s, js) == Some(s)
    ensures !BreakpointAt(s.mem.bytes, s.pipe.pc) && js != [] ==>
      Simulate(g, s, js) == match Cycle(g, s, js[0]) case None => None case Some(t) => Simulate(g, t, js[1..])
  {
    BreakpointIff(s);
  }

  /** The geometry and the contents at power-on. */
  lemma PowerOnIsEmpty(bytes: seq<byte>, readLatency: nat, writeLatency: nat, i: nat, j: nat)
    requires i < 512 && j < 4096
    ensures var s := PowerOn(bytes, readLatency, writeLatency);
      && |s.icache.rows| == 512 && s.icache.numBlocks == 512 && |s.icache.rows[i].data| == 16 && !s.icache.rows[i].valid
      && |s.dcache.rows| == 4096 && s.dcache.numBlocks == 2048 && |s.dcache.rows[j].data| == 8
      && !s.dcache.rows[j].valid && !s.dcache.rows[j].dirty
      && |s.itlb.entries| == 8 && |s.dtlb.entries| == 8
      && !s.itlb.entries[i % 8].valid && !s.dtlb.entries[i % 8].valid
      && |s.mem.slots| == 4 && s.mem.slots[i % 4].op == Free
      && s.pipe.d == DReg(0, 0, 0, false, 0, 0) && s.pipe.x.regs == Regs(0, 0, 0) && !s.pipe.x.notStalled
      && s.pipe.m.readWrite == NOP && s.pipe.m.tainted == 0 && !s.pipe.w.op && s.pipe.w.stall == 0 && s.pipe.w.reg == 0
      && s.pipe.pc == 0 && s.pipe.regs[i % 32] == ZERO && s.mem.bytes == bytes && s.mem.cycle == 0
  {
    Pow2Of9And11();
  }

  lemma Pow2Of9And11()
    ensures Pow2(9) == 512 && Pow2(11) == 2048
  {
    assert Pow2(4) == 16 && Pow2(8) == 256;
  }
}
