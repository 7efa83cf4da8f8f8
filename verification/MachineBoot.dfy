/** Switched on, the machine finds its way to the first instruction: every cycle until then is orderly. */
module MachineBoot {
  import opened Words
  import opened Memory
  import MemoryProofs
  import opened Traffic
  import opened Pipeline
  import opened PipelineProofs
  import Tlb
  import Cache
  import CacheProofs
  import SharedCache
  import opened Core
  import opened MachineState
  import MachineFetch
  import FetchTiming
  import opened CoreProofs
  import opened MachineRuns

  /** A pc to start from: it translates, to the base of an instruction block of the text. */
  predicate Startable(g: Setting, img: Image, pc: nat) {
    var p := PhysicalOf(g, img, pc);
    && pc < TWO32 && Translatable(g, img, pc) && p % 16 == 0 && p + 16 <= |img.bytes| && BlockFixed(img, p)
  }

  /** Nothing is in the pipeline. */
  predicate EmptyPipe(p: Pipe, pc: nat) {
    && p.pc == pc && !p.d.notStalled && !p.x.notStalled
    && p.m.readWrite == NOP && p.m.tainted == 0 && p.w.stall == 0 && p.w.tainted == 0
  }

  /** Fetch is on its way to the word at `pc`, and nothing else is going on. */
  ghost predicate Starting(g: Setting, img: Image, x: Live, pc: nat) {
    && LiveSound(g, img, x) && EmptyPipe(x.s.pipe, pc) && x.dp == Resting && Startable(g, img, pc)
    && (x.fp.Walking? ==> x.fp.ask.va == pc) && (x.fp.Caching? ==> x.fp.va == pc)
  }

  lemma EmptyPipeCycle(exec: Handlers, p: Pipe, pc: nat, fetch: FetchOutcome)
    requires p.Valid() && EmptyPipe(p, pc)
    ensures FetchPc(exec, p) == pc && !Mispredicts(exec, p) && ZeroSafe(p)
    ensures var q := Pipeline.Cycle(exec, p, Stored, fetch);
      && (!fetch.Fetched? ==> EmptyPipe(q, pc))
      && (fetch.Fetched? ==> q.d.notStalled && q.d.pc == pc && q.d.instruction == fetch.instruction && !q.x.notStalled)
  {
  }

  lemma SmallMod(a: nat)
    requires a < TWO32
    ensures a % TWO32 == a
  {
  }

  lemma StartSuits(g: Setting, img: Image, c: Cache.Table, bytes: seq<byte>, pc: nat, available: bool)
    requires c.Valid() && c.kind == Cache.Instruction && |bytes| == |img.bytes| && Startable(g, img, pc)
    ensures SharedCache.Suits(c, bytes, FetchAsked(g, img, pc), available)
  {
    var p := PhysicalOf(g, img, pc);
    CacheProofs.SplitJoin(c, p);
  }

  /** A cycle without a data access leaves memory to fetch as it is. */
  lemma QuietPart(g: Setting, s: State, junk: Quad)
    requires s.Valid() && !IsAccess(s.pipe.m)
    ensures DataPart(g, s, junk) == DataResult(Stored, s.dtlb, s.dcache, s.mem.(stage := Access))
    ensures FetchMem(g, s, junk) == s.mem.(stage := Fetch)
  {
  }

  lemma StartFetchOk(g: Setting, img: Image, t: Tlb.Table, c: Cache.Table, mem: Mem, d: DReg, pc: nat, fp: Phase,
      junk: Quad)
    requires t.Valid() && c.Valid() && FetchPhase(g, img, t, d, fp) && Startable(g, img, pc) && !d.notStalled
    requires (fp.Walking? ==> fp.ask.va == pc) && (fp.Caching? ==> fp.va == pc)
    requires SharedCache.Suits(c, mem.bytes, FetchAsked(g, img, pc), true)
    requires SharedCache.Suits(c, mem.bytes, FetchAsked(g, img, pc), false)
    requires ClaimOf(fp, c).None? ==>
      && MemoryProofs.Fresh(mem.slots, AskOf(g, img, pc).FirstAt())
          && MemoryProofs.Fresh(mem.slots, AskOf(g, img, pc).SecondAt())
      && MemoryProofs.Fresh(mem.slots, FetchAsked(g, img, pc).address)
    ensures MachineFetch.FetchOk(g, img, t, c, mem, d, pc, fp, junk)
  {
    SmallMod(pc);
  }

  /** No request is in the way of the one fetch makes next. */
  lemma StartFresh(g: Setting, img: Image, m: Mem, pc: nat, fp: Phase, c: Cache.Table)
    requires c.Valid() && Shared(m, None, ClaimOf(fp, c))
    ensures ClaimOf(fp, c).None? ==>
      && MemoryProofs.Fresh(m.slots, AskOf(g, img, pc).FirstAt())
          && MemoryProofs.Fresh(m.slots, AskOf(g, img, pc).SecondAt())
      && MemoryProofs.Fresh(m.slots, FetchAsked(g, img, pc).address)
  {
    if ClaimOf(fp, c).None? {
      var a := AskOf(g, img, pc);
      NothingPending(m, a.FirstAt());
      NothingPending(m, a.SecondAt());
      NothingPending(m, FetchAsked(g, img, pc).address);
    }
  }

  lemma StartCycleOk(g: Setting, img: Image, x: Live, pc: nat, j: Junk)
    requires Starting(g, img, x, pc)
    ensures CycleOk(g, img, x.s, x.fp, x.dp, j)
  {
    var s := x.s;
    QuietPart(g, s, j.0);
    EmptyPipeCycle(g.exec, s.pipe, pc, FetchMiss(1));
    StartSuits(g, img, s.icache, s.mem.bytes, pc, true);
    StartSuits(g, img, s.icache, s.mem.bytes, pc, false);
    StartFresh(g, img, s.mem, pc, x.fp, s.icache);
    StartFetchOk(g, img, s.itlb, s.icache, s.mem.(stage := Fetch), s.pipe.d, pc, x.fp, j.1);
    SmallMod(pc);
  }

  /** What fetch waits for next is the same word. */
  lemma StartPhase(g: Setting, img: Image, x: Live, pc: nat, j: Junk)
    requires x.s.Valid() && EmptyPipe(x.s.pipe, pc) && pc < TWO32 && x.dp == Resting
    requires (x.fp.Walking? ==> x.fp.ask.va == pc) && (x.fp.Caching? ==> x.fp.va == pc)
    ensures var fp := FetchNext(g, img, x.s, x.fp, j);
      DataNext(g, img, x.s, x.dp, j.0) == Resting && (fp.Walking? ==> fp.ask.va == pc) && (fp.Caching? ==> fp.va == pc)
  {
    EmptyPipeCycle(g.exec, x.s.pipe, pc, FetchMiss(1));
    SmallMod(pc);
  }

  lemma StartRoundOk(g: Setting, img: Image, x: Live, pc: nat, j: Junk)
    requires x.s.Valid() && EmptyPipe(x.s.pipe, pc) && CycleOk(g, img, x.s, x.fp, x.dp, j)
    ensures RoundOk(g, img, x, One(j))
  {
    EmptyPipeCycle(g.exec, x.s.pipe, pc, FetchMiss(1));
  }

  lemma StartLands(g: Setting, img: Image, x: Live, pc: nat, j: Junk, t: State, dp: Phase)
    requires x.s.Valid() && t.Valid() && EmptyPipe(x.s.pipe, pc) && CycleTells(g, img, x.s, x.dp, j, t, dp)
    ensures EmptyPipe(t.pipe, pc) || (t.pipe.d.notStalled && t.pipe.d.pc == pc
        && t.pipe.d.instruction == CodeAt(g, img, pc))
  {
    QuietPart(g, x.s, j.0);
    EmptyPipeCycle(g.exec, x.s.pipe, pc, FetchPart(g, x.s, FetchMem(g, x.s, j.0), j.1).fetched);
  }

  /** The program's word at `pc` is in D. */
  predicate Landed(g: Setting, img: Image, p: Pipe, pc: nat) {
    p.d.notStalled && p.d.pc == pc && p.d.instruction == CodeAt(g, img, pc)
  }

  /** The cycles until the word is in D, at most. */
  function LeftIn(x: Live, pc: nat): nat
    requires x.s.Valid()
  {
    FetchTiming.Left(x.s.itlb, x.fp, pc, x.s.mem.cycle, x.s.mem.readLatency)
  }

  lemma StartNearer(g: Setting, img: Image, x: Live, pc: nat, j: Junk)
    requires Starting(g, img, x, pc) && CycleOk(g, img, x.s, x.fp, x.dp, j)
    ensures var r := FetchPart(g, x.s, FetchMem(g, x.s, j.0), j.1);
      r.FetchAccessResult? ==>
        FetchTiming.Nearer(x.s.itlb, x.fp, r.tlb, FetchNext(g, img, x.s, x.fp, j), pc, x.s.mem.cycle,
            x.s.mem.readLatency, r.fetched)
        && SameClock(FetchMem(g, x.s, j.0), r.mem)
  {
    var s := x.s;
    var mem := FetchMem(g, s, j.0);
    SmallMod(pc);
    QuietPart(g, s, j.0);
    EmptyPipeCycle(g.exec, s.pipe, pc, FetchMiss(1));
    FetchPartIs(g, s, j);
    SameSlots(s.mem, mem, None, ClaimOf(x.fp, s.icache));
    SessionMoves(s.icache, s.mem, mem, CachePhase(x.fp));
    FetchTiming.FetchProgresses(g, img, s.itlb, s.icache, mem, s.pipe.d, pc, x.fp, None, j.1);
    var own := MachineFetch.FetchStep(g, img, s.itlb, s.icache, mem, s.pipe.d, pc, x.fp, None, j.1);
  }

  lemma StartCloser(g: Setting, img: Image, x: Live, pc: nat, j: Junk)
    requires x.s.Valid() && EmptyPipe(x.s.pipe, pc) && Core.Cycle(g, x.s, j).Some?
    requires var r := FetchPart(g, x.s, FetchMem(g, x.s, j.0), j.1);
      r.FetchAccessResult? ==>
        && FetchTiming.Nearer(x.s.itlb, x.fp, r.tlb, FetchNext(g, img, x.s, x.fp, j), pc, x.s.mem.cycle,
            x.s.mem.readLatency, r.fetched)
        && SameClock(FetchMem(g, x.s, j.0), r.mem)
    ensures var y := Next(g, img, x, j); EmptyPipe(y.s.pipe, pc) ==> LeftIn(y, pc) < LeftIn(x, pc)
  {
    QuietPart(g, x.s, j.0);
    EmptyPipeCycle(g.exec, x.s.pipe, pc, FetchPart(g, x.s, FetchMem(g, x.s, j.0), j.1).fetched);
  }

  /** At the start, with so many cycles to go at most. */
  ghost predicate StartingWithin(g: Setting, img: Image, x: Live, pc: nat, left: nat) {
    Starting(g, img, x, pc) && LeftIn(x, pc) <= left
  }

  /** A cycle of the start: orderly, and followed by another, or by the first instruction in D. */
  lemma StartStep(g: Setting, img: Image, x: Live, pc: nat, r: Round) returns (y: Live, again: bool)
    requires Starting(g, img, x, pc) && HandlersOk(WorldOf(g, img)) && r.One?
    ensures x.s.Valid() && RoundOk(g, img, x, r) && y == After(g, img, x, r) && Core.Cycle(g, x.s, r.j).Some?
    ensures again ==> Starting(g, img, y, pc)
    ensures !again ==> Landed(g, img, y.s.pipe, pc)
  {
    StartCycleOk(g, img, x, pc, r.j);
    StartRoundOk(g, img, x, pc, r.j);
    var t := CycleSound(g, img, x.s, x.fp, x.dp, r.j);
    StartPhase(g, img, x, pc, r.j);
    StartLands(g, img, x, pc, r.j, t, DataNext(g, img, x.s, x.dp, r.j.0));
    y := After(g, img, x, r);
    again := EmptyPipe(y.s.pipe, pc);
  }

  lemma StartStepWithin(g: Setting, img: Image, x: Live, pc: nat, r: Round, left: nat) returns (y: Live, again: bool)
    requires StartingWithin(g, img, x, pc, left) && HandlersOk(WorldOf(g, img)) && r.One?
    ensures left > 0 && x.s.Valid() && RoundOk(g, img, x, r) && y == After(g, img, x, r)
    ensures again ==> StartingWithin(g, img, y, pc, left - 1)
    ensures !again ==> Landed(g, img, y.s.pipe, pc)
  {
    y, again := StartStep(g, img, x, pc, r);
    StartCycleOk(g, img, x, pc, r.j);
    StartNearer(g, img, x, pc, r.j);
    StartCloser(g, img, x, pc, r.j);
  }

  /** From such a state, for any latencies and any contents of the C program's unset locals, as many cycles as one
      likes are orderly, until the program's word at `pc` is in D, and it is there within the time left. */
  lemma {:induction false} StartIsOrderly(g: Setting, img: Image, x: Live, pc: nat, left: nat, rounds: seq<Round>)
    returns (done: seq<Round>, y: Live)
    requires StartingWithin(g, img, x, pc, left) && HandlersOk(WorldOf(g, img)) && OnesOnly(rounds)
    ensures done <= rounds && AllRoundsOk(g, img, x, done) && y == AfterAll(g, img, x, done) && |done| <= left
    ensures |done| < |rounds| || left <= |rounds| ==> Landed(g, img, y.s.pipe, pc)
    decreases |rounds|
  {
    if rounds == [] {
      done, y := [], x;
      LeftIsPositive(x, pc);
    } else {
      var z, again := StartStepWithin(g, img, x, pc, rounds[0], left);
      var rest: seq<Round>;
      if again {
        rest, y := StartIsOrderly(g, img, z, pc, left - 1, rounds[1..]);
      } else {
        rest, y := [], z;
      }
      done := [rounds[0]] + rest;
      LongerPrefix(rest, rounds);
      RoundThenRest(g, img, x, rounds[0], rest, done);
    }
  }

  lemma LeftIsPositive(x: Live, pc: nat)
    requires x.s.Valid()
    ensures LeftIn(x, pc) > 0
  {
  }

  /** Power-on, with a program at 0, is such a state: the first word is in D within 3L + 3 cycles. */
  lemma BootIsOrderly(g: Setting, img: Image, readLatency: nat, writeLatency: nat, rounds: seq<Round>)
    returns (done: seq<Round>, y: Live)
    requires ImageOk(g, img) && Startable(g, img, 0) && HandlersOk(WorldOf(g, img)) && OnesOnly(rounds)
    ensures var x := Started(img, readLatency, writeLatency);
      done <= rounds && AllRoundsOk(g, img, x, done) && y == AfterAll(g, img, x, done)
    ensures |done| <= 3 * readLatency + 3
    ensures |done| < |rounds| || 3 * readLatency + 3 <= |rounds| ==> Landed(g, img, y.s.pipe, 0)
  {
    PowerOnStarts(g, img, readLatency, writeLatency);
    done, y := StartIsOrderly(g, img, Started(img, readLatency, writeLatency), 0, 3 * readLatency + 3, rounds);
  }

  predicate OnesOnly(rounds: seq<Round>) {
    forall i :: 0 <= i < |rounds| ==> rounds[i].One?
  }

  lemma PowerOnStarts(g: Setting, img: Image, readLatency: nat, writeLatency: nat)
    requires ImageOk(g, img) && Startable(g, img, 0)
    ensures StartingWithin(g, img, Started(img, readLatency, writeLatency), 0, 3 * readLatency + 3)
  {
    PowerOnFollows(g, img, readLatency, writeLatency);
    assert !Tlb.Hits(Tlb.Empty(), 0);
  }
}
