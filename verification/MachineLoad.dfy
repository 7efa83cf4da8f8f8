/** The load path inside the whole machine: what the pipeline replays and what the fetch stage does
    meanwhile are exactly the presentations and the traffic of a trip. */
module MachineLoad {
  import opened Words
  import opened Memory
  import opened Pipeline
  import PipelineProofs
  import opened Core
  import Tlb
  import TlbProofs
  import Cache
  import CacheRefinement
  import MemoryProofs
  import opened LoadPath

  // ---------------------------------------------------------------- the fetch stage's traffic

  /** The memory call of one translation, if any. */
  function WalkOps(ptbr: nat, t: Tlb.Table, va: nat, status: byte): seq<MemOp>
    requires t.Valid()
  {
    if status == Tlb.START && Tlb.Hits(t, va) then []
    else if status == Tlb.START then [DoRead(Tlb.FirstAddress(ptbr, va), 4)]
    else if status == Tlb.WAIT_FIRST then [Poll(Tlb.FirstAddress(ptbr, va))]
    else if !Tlb.EntryValid(t.cachedSecond) then []
    else if status == Tlb.WAIT_SECOND then [Poll(Tlb.SecondAddress(t.cachedSecond, va))]
    else [DoRead(Tlb.SecondAddress(t.cachedSecond, va), 4)]
  }

  lemma WalkIsTraffic(ptbr: nat, t: Tlb.Table, m: Mem, va: nat, status: byte, junk: Quad)
    requires t.Valid()
    ensures var r := Tlb.GetAddress(ptbr, t, m, va, status, junk);
      r.Walk? ==> r.mem == Memory.Run(m, WalkOps(ptbr, t, va, status))
  {
    RunOne(m, WalkOps(ptbr, t, va, status));
  }

  lemma RunOne(m: Mem, ops: seq<MemOp>)
    ensures ops == [] ==> Memory.Run(m, ops) == m
    ensures |ops| == 1 ==> Memory.Run(m, ops) == Apply(m, ops[0])
  {
    if |ops| == 1 {
      assert ops[1..] == [];
    }
  }

  /** The memory call of one instruction cache access with memory available or not, if any. */
  function FillOps(c: Cache.Table, address: nat, followup: bool, available: bool): seq<MemOp>
    requires c.Valid()
  {
    var p := c.Split(address);
    if p.off % 4 != 0 || c.Resident(p.tag, p.set_).Some? || !available then []
    else if followup then [Poll(address)] else [DoRead(address, 16)]
  }

  lemma FillIsTraffic(c: Cache.Table, m: Mem, address: nat, followup: bool, available: bool)
    requires c.Valid() && c.kind == Cache.Instruction
    ensures var r := Cache.ReadAccess(c, m, address, 4, followup, available);
      r.Done? || r.Stall? ==> r.mem == Memory.Run(m, FillOps(c, address, followup, available))
  {
    RunOne(m, FillOps(c, address, followup, available));
  }

  function FetchStatus(d: DReg): byte {
    if d.willBeStalled == 2 then d.tlbStatus else Tlb.START
  }

  /** Everything the fetch stage asks of memory in a cycle. */
  function FetchOps(ptbr: nat, t: Tlb.Table, c: Cache.Table, mem: Mem, d: DReg, pc: nat, junk: Quad): seq<MemOp>
    requires t.Valid() && c.Valid()
  {
    var first := WalkOps(ptbr, t, pc % TWO32, FetchStatus(d));
    match Tlb.GetAddress(ptbr, t, mem, pc % TWO32, FetchStatus(d), junk)
    case Abort => first
    case Walk(_, _, status, pa) =>
      if status != Tlb.HIT && status != Tlb.START then first
      else first + FillOps(c, pa, d.willBeStalled == 1, status == Tlb.HIT)
  }

  lemma {:induction false} RunConcat(m: Mem, ops: seq<MemOp>, more: seq<MemOp>)
    ensures Memory.Run(m, ops + more) == Memory.Run(Memory.Run(m, ops), more)
    decreases |ops|
  {
    if ops == [] {
      assert ops + more == more;
    } else {
      assert (ops + more)[0] == ops[0] && (ops + more)[1..] == ops[1..] + more;
      RunConcat(Apply(m, ops[0]), ops[1..], more);
    }
  }

  lemma FetchIsTraffic(ptbr: nat, t: Tlb.Table, c: Cache.Table, mem: Mem, d: DReg, pc: nat, junk: Quad)
    requires t.Valid() && c.Valid() && c.kind == Cache.Instruction
    ensures var r := FetchAccess(ptbr, t, c, mem, d, pc, junk);
      r.FetchAccessResult? ==> r.mem == Memory.Run(mem, FetchOps(ptbr, t, c, mem, d, pc, junk))
  {
    var va, status := pc % TWO32, FetchStatus(d);
    WalkIsTraffic(ptbr, t, mem, va, status, junk);
    var r := Tlb.GetAddress(ptbr, t, mem, va, status, junk);
    if r.Walk? && (r.status == Tlb.HIT || r.status == Tlb.START) {
      FillIsTraffic(c, r.mem, r.output, d.willBeStalled == 1, r.status == Tlb.HIT);
      RunConcat(mem, WalkOps(ptbr, t, va, status), FillOps(c, r.output, d.willBeStalled == 1, r.status == Tlb.HIT));
    }
  }

  /** The fetch traffic of the cycle that starts in `s`. */
  function OpsIn(g: Setting, s: State, mem: Mem, junk: Quad): seq<MemOp>
    requires s.Valid()
  {
    FetchOps(g.ptbr, s.itlb, s.icache, mem.(stage := Fetch), s.pipe.d, FetchPc(g.exec, s.pipe), junk)
  }

  // ---------------------------------------------------------------- two cycles of the machine

  function TripOf(s: State): Trip {
    Trip(s.dtlb, s.dcache, s.mem, s.pipe.m)
  }

  /** A load is presented to the memory system in this cycle. */
  predicate PresentsLoad(s: State) {
    s.pipe.w.tainted == 0 && s.pipe.m.readWrite == LOAD
  }

  lemma CycleParts(g: Setting, s: State, junk: (Quad, Quad))
    requires s.Valid() && Core.Cycle(g, s, junk).Some?
    ensures var data := DataPart(g, s, junk.0);
      && data.DataResult?
      && var t := Core.Cycle(g, s, junk).value;
         && t.dtlb == data.tlb && t.dcache == data.cache && t.mem == Rest(data.mem, OpsIn(g, s, data.mem, junk.1))
         && exists f :: t.pipe == Pipeline.Cycle(g.exec, s.pipe, data.outcome, f)
  {
    var data := DataPart(g, s, junk.0);
    FetchIsTraffic(g.ptbr, s.itlb, s.icache, data.mem.(stage := Fetch), s.pipe.d, FetchPc(g.exec, s.pipe), junk.1);
    var fetch := FetchPart(g, s, data.mem, junk.1);
    assert Core.Cycle(g, s, junk).value.pipe == Pipeline.Cycle(g.exec, s.pipe, data.outcome, fetch.fetched);
  }

  /** The traffic between a stalled load's presentation and the next. */
  function GapIn(g: Setting, s: State, j: (Quad, Quad), k: (Quad, Quad)): Gap
    requires s.Valid()
  {
    var data := DataPart(g, s, j.0);
    match Core.Cycle(g, s, j)
    case None => Gap([], [], j.0)
    case Some(t) =>
      Gap(if data.DataResult? then OpsIn(g, s, data.mem, j.1) else [], OpsIn(g, t, t.mem.(stage := Access), k.1), j.0)
  }

  /** The access presented is held back and replayed alone: a load, or a store waiting for its translation. */
  predicate Replays(s: State, outcome: DataOutcome) {
    && s.pipe.w.tainted == 0
    && ((s.pipe.m.readWrite == LOAD && Stalls(outcome)) || (s.pipe.m.readWrite == STORE && outcome.DataTlbStall?))
  }

  /** Two cycles after a load, or a store waiting for its translation, stalled, the machine presents it
      again, with the translation buffer, its held entry and the data cache as it left them. */
  lemma TwoCyclesReplay(g: Setting, s: State, j: (Quad, Quad), k: (Quad, Quad))
    requires s.Valid() && DataPart(g, s, j.0).DataResult? && Replays(s, DataPart(g, s, j.0).outcome)
    requires Core.Cycle(g, s, j).Some? && Core.Cycle(g, Core.Cycle(g, s, j).value, k).Some?
    ensures var t := Core.Cycle(g, Core.Cycle(g, s, j).value, k).value;
      && t.Valid() && t.pipe.w.tainted == 0 && t.pipe.m.readWrite == s.pipe.m.readWrite
      && TripOf(t) == NextTrip(TripOf(s), DataPart(g, s, j.0), GapIn(g, s, j, k))
  {
    var data := DataPart(g, s, j.0);
    var s1 := Core.Cycle(g, s, j).value;
    CycleParts(g, s, j);
    CycleParts(g, s1, k);
    var f :| s1.pipe == Pipeline.Cycle(g.exec, s.pipe, data.outcome, f);
    var data1 := DataPart(g, s1, k.0);
    var t := Core.Cycle(g, s1, k).value;
    var f1 :| t.pipe == Pipeline.Cycle(g.exec, s1.pipe, data1.outcome, f1);
    PipelineProofs.ReplayIntegrity(g.exec, s.pipe, data.outcome, f, data1.outcome, f1);
    assert data1.mem == s1.mem.(stage := Access);
    assert data1.mem.(stage := Fetch) == s1.mem.(stage := Fetch);
  }

  // ---------------------------------------------------------------- the load, cycle by cycle

  /** The inputs of two successive cycles. */
  datatype Round = Round(first: (Quad, Quad), second: (Quad, Quad))

  function TwoCycles(g: Setting, s: State, r: Round): (t: Option<State>)
    requires s.Valid()
    ensures t.Some? ==> t.value.Valid()
  {
    match Core.Cycle(g, s, r.first) case None => None case Some(s1) => Core.Cycle(g, s1, r.second)
  }

  /** The machine runs on through all the rounds. */
  predicate GoesOn(g: Setting, s: State, rounds: seq<Round>)
    requires s.Valid()
    decreases |rounds|
  {
    rounds == [] || (TwoCycles(g, s, rounds[0]).Some? && GoesOn(g, TwoCycles(g, s, rounds[0]).value, rounds[1..]))
  }

  /** The data access of the cycle after 2 * |rounds| cycles. */
  function DataAfter(g: Setting, s: State, rounds: seq<Round>, junk: Quad): DataResult
    requires s.Valid() && GoesOn(g, s, rounds)
    decreases |rounds|
  {
    if rounds == [] then DataPart(g, s, junk)
    else DataAfter(g, TwoCycles(g, s, rounds[0]).value, rounds[1..], junk)
  }

  /** The fetch traffic between the presentations in cycles 0, 2, 4, ... */
  function GapsIn(g: Setting, s: State, rounds: seq<Round>, junk: Quad): (r: seq<Gap>)
    requires s.Valid() && GoesOn(g, s, rounds)
    ensures |r| == |rounds| + 1
    decreases |rounds|
  {
    if rounds == [] then [Gap([], [], junk)]
    else [GapIn(g, s, rounds[0].first, rounds[0].second)] + GapsIn(g, TwoCycles(g, s, rounds[0]).value, rounds[1..],
        junk)
  }

  lemma PresentedInMachine(g: Setting, s: State, gap: Gap)
    requires s.Valid() && PresentsLoad(s)
    ensures PresentLoad(g.ptbr, TripOf(s), gap) == DataPart(g, s, gap.junk)
  {
  }

  lemma LastAnswerUnrolls(ptbr: nat, s: Trip, gaps: seq<Gap>, r: DataResult)
    requires s.tlb.Valid() && s.cache.Valid() && |gaps| > 1 && r == PresentLoad(ptbr, s, gaps[0])
    requires LastAnswer(ptbr, s, gaps).Some?
    ensures r.DataResult? && Stalls(r.outcome)
    ensures LastAnswer(ptbr, s, gaps) == LastAnswer(ptbr, NextTrip(s, r, gaps[0]), gaps[1..])
  {
  }

  lemma AnswerUnrolls(g: Setting, s: State, t: State, gaps: seq<Gap>)
    requires s.Valid() && t.Valid() && PresentsLoad(s) && |gaps| > 1
    requires LastAnswer(g.ptbr, TripOf(s), gaps).Some?
    ensures var r := DataPart(g, s, gaps[0].junk);
      && r.DataResult? && Stalls(r.outcome)
      && (TripOf(t) == NextTrip(TripOf(s), r, gaps[0]) ==>
            LastAnswer(g.ptbr, TripOf(s), gaps) == LastAnswer(g.ptbr, TripOf(t), gaps[1..]))
  {
    PresentedInMachine(g, s, gaps[0]);
    LastAnswerUnrolls(g.ptbr, TripOf(s), gaps, DataPart(g, s, gaps[0].junk));
  }

  /** As long as the load only stalls, the machine's data accesses are the trip's presentations. */
  lemma {:induction false} MachineIsTrip(g: Setting, s: State, rounds: seq<Round>, junk: Quad)
    requires s.Valid() && PresentsLoad(s) && GoesOn(g, s, rounds)
    requires LastAnswer(g.ptbr, TripOf(s), GapsIn(g, s, rounds, junk)).Some?
    ensures var r := DataAfter(g, s, rounds, junk);
      r.DataResult? && LastAnswer(g.ptbr, TripOf(s), GapsIn(g, s, rounds, junk)) == Some(r.outcome)
    decreases |rounds|
  {
    var gaps := GapsIn(g, s, rounds, junk);
    if rounds == [] {
      PresentedInMachine(g, s, gaps[0]);
    } else {
      var t := TwoCycles(g, s, rounds[0]).value;
      AnswerUnrolls(g, s, t, gaps);
      TwoCyclesReplay(g, s, rounds[0].first, rounds[0].second);
      assert gaps[1..] == GapsIn(g, t, rounds[1..], junk);
      MachineIsTrip(g, t, rounds[1..], junk);
    }
  }

  /** Load completion in the whole machine: in a run that goes on, a load that misses the translation buffer
      and the cache stalls in cycles t, t + 2, ..., t + 6c + 2 and is answered in cycle t + 6c + 4,
      c = ceil(L / 2), with the flat memory's bytes at the pure walk's address, if only the fetch stage
      keeps off its three addresses and leaves it a slot when it needs one. */
  lemma LoadCompletesInMachine(g: Setting, s: State, rounds: seq<Round>, junk: Quad, a: TlbProofs.Ask, goal: Goal)
    requires s.Valid() && PresentsLoad(s) && s.pipe.m.wasStalled == 0 && s.mem.issued == {}
    requires g.ptbr < TWO32 && |s.mem.bytes| <= TWO32
    requires var va := s.pipe.m.address % TWO32;
      && Tlb.Admitted(va) && !Tlb.Hits(s.dtlb, va) && TlbProofs.PureWalk(s.mem.bytes, g.ptbr, va).Some?
      && a == TlbProofs.AskFor(s.mem.bytes, g.ptbr, va)
      && goal == Goal(a, TlbProofs.PureWalk(s.mem.bytes, g.ptbr, va).value, s.pipe.m.size,
                      CacheRefinement.Flat(s.dcache, s.mem.bytes, CacheRefinement.NO_HOLE))
    requires Uncached(goal, s.dcache, s.mem.bytes)
    requires MemoryProofs.Fresh(s.mem.slots, a.FirstAt()) && MemoryProofs.Fresh(s.mem.slots, a.SecondAt())
    requires MemoryProofs.Fresh(s.mem.slots, goal.pa)
    requires |rounds| <= 3 * Half(s.mem.readLatency) + 2
    requires GoesOn(g, s, rounds) && GapsOk(goal, TripOf(s), GapsIn(g, s, rounds, junk))
    ensures var r := DataAfter(g, s, rounds, junk);
      && r.DataResult?
      && (2 * |rounds| < 6 * Half(s.mem.readLatency) + 4 ==> Stalls(r.outcome))
      && (2 * |rounds| == 6 * Half(s.mem.readLatency) + 4 ==>
            goal.pa + goal.size <= |goal.flat| && r.outcome == Loaded(goal.flat[goal.pa..goal.pa + goal.size]))
  {
    LoadCompletesOnTime(g.ptbr, TripOf(s), GapsIn(g, s, rounds, junk), a, goal);
    MachineIsTrip(g, s, rounds, junk);
  }
}
