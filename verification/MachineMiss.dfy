/** A load that misses, on the whole machine: with fetch hitting meanwhile, every round is orderly until the load is
    answered. */
module MachineMiss {
  import opened Words
  import opened Memory
  import opened Traffic
  import opened Pipeline
  import opened PipelineProofs
  import PipelineStalls
  import Tlb
  import TlbProofs
  import Cache
  import CacheSessions
  import SharedCache
  import opened Core
  import opened MachineState
  import MachineData
  import MachineFetch
  import opened MachineBehind
  import opened CoreProofs
  import opened MachineRuns

  // ---------------------------------------------------------------- fetch

  /** The cycle's fetch hits its translation and the cache. */
  ghost predicate FetchHits(g: Setting, img: Image, s: State)
    requires s.Valid()
  {
    var va := FetchPc(g.exec, s.pipe) % TWO32;
    var q := FetchAsked(g, img, va);
    var p := s.icache.Split(q.address);
    && Tlb.Hits(s.itlb, va) && Translate(g, img, va).Some? && CacheSessions.Shapely(s.icache, img.bytes, q)
    && s.icache.Resident(p.tag, p.set_).Some?
  }

  lemma HitIsOk(g: Setting, img: Image, s: State, mem: Mem, junk: Quad)
    requires s.Valid() && FetchHits(g, img, s) && |mem.bytes| == |img.bytes|
    ensures MachineFetch.FetchOk(g, img, s.itlb, s.icache, mem, s.pipe.d, FetchPc(g.exec, s.pipe) % TWO32, Resting,
        junk)
  {
  }

  /** It leaves fetch with nothing to wait for. */
  lemma HitRests(g: Setting, img: Image, s: State, fp: Phase, dp: Phase, j: Junk)
    requires Sound(g, img, s, fp, dp) && fp == Resting && FetchHits(g, img, s)
    ensures FetchNext(g, img, s, fp, j) == Resting
  {
    var pc := FetchPc(g.exec, s.pipe);
    var va := pc % TWO32;
    var mem := FetchMem(g, s, j.0);
    ModTwice(pc);
    FetchPartIs(g, s, j);
    HitTranslates(g, img, s.itlb, mem, va, j.1);
    var w := MachineFetch.FetchWalk(g, s.itlb, mem, s.pipe.d, va, j.1);
    MachineFetch.FetchAccessIs(g, img, s.itlb, s.icache, mem, s.pipe.d, pc, j.1, w);
    ResidentIsDone(s.icache, w.mem, FetchAsked(g, img, va), s.pipe.d.willBeStalled == 1);
  }

  lemma ResidentIsDone(c: Cache.Table, m: Mem, q: CacheSessions.Request, followup: bool)
    requires c.Valid() && c.kind == Cache.Instruction && q.Load? && q.size == 4 && c.Split(q.address).off % 4 == 0
    requires c.Split(q.address).off + 4 <= 16 && c.Resident(c.Split(q.address).tag, c.Split(q.address).set_).Some?
    ensures CacheSessions.Present(c, m, q, followup, true).Done?
  {
  }

  // ---------------------------------------------------------------- the load

  /** A load in M, at any point of its walk or its fill, that the cache is fit to answer. */
  ghost predicate Loading(g: Setting, img: Image, x: Live) {
    var m := x.s.pipe.m;
    && LiveSound(g, img, x) && x.fp == Resting && x.s.pipe.w.stall == 0 && m.readWrite == LOAD
    && Translatable(g, img, m.address % TWO32) && PipelineStalls.KeepsSources(CodeAt(g, img, m.pc))
    && (!x.dp.Caching? ==> CacheFit(x.s.dcache, img.bytes, Asked(g, img, m)))
  }

  /** A hit, or a miss at the base of a block with a clean victim. */
  ghost predicate CacheFit(c: Cache.Table, bytes: seq<byte>, q: CacheSessions.Request)
    requires c.Valid()
  {
    SharedCache.Suits(c, bytes, q, true) && SharedCache.Suits(c, bytes, q, false)
  }

  lemma FitIsSized(c: Cache.Table, b1: seq<byte>, b2: seq<byte>, q: CacheSessions.Request)
    requires c.Valid() && CacheFit(c, b1, q) && |b1| == |b2|
    ensures CacheFit(c, b2, q)
  {
  }

  lemma LoadIsOk(g: Setting, img: Image, s: State, dp: Phase, junk: Quad)
    requires s.Valid() && s.pipe.m.readWrite == LOAD && Translatable(g, img, s.pipe.m.address % TWO32)
    requires !dp.Caching? ==> CacheFit(s.dcache, s.mem.bytes, Asked(g, img, s.pipe.m))
    requires Shared(s.mem, ClaimOf(dp, s.dcache), None)
    ensures MachineData.DataOk(g, img, s, dp, junk)
  {
    if ClaimOf(dp, s.dcache).None? {
      var q := Asked(g, img, s.pipe.m);
      NothingPending(s.mem, AskOf(g, img, s.pipe.m.address % TWO32).FirstAt());
      if dp.Walking? {
        NothingPending(s.mem, dp.ask.SecondAt());
      }
      if SharedCache.Wanted(s.dcache, q).Some? {
        NothingPending(s.mem, SharedCache.Wanted(s.dcache, q).value);
      }
    }
  }

  lemma LoadCycleOk(g: Setting, img: Image, x: Live, j: Junk)
    requires Loading(g, img, x) && FetchHits(g, img, x.s)
    ensures CycleOk(g, img, x.s, x.fp, x.dp, j)
  {
    var s := x.s;
    if !x.dp.Caching? {
      FitIsSized(s.dcache, img.bytes, s.mem.bytes, Asked(g, img, s.pipe.m));
    }
    LoadIsOk(g, img, s, x.dp, j.0);
    var own := MachineData.DataStep(g, img, s, x.fp, x.dp, j.0);
    HitIsOk(g, img, s, FetchMem(g, s, j.0), j.1);
  }

  /** A stall that leaves nothing in flight in the cache leaves the cache as it is. */
  lemma StallKeepsCache(g: Setting, img: Image, s: State, dp: Phase, junk: Quad)
    requires s.Valid() && s.pipe.m.readWrite == LOAD && s.pipe.w.tainted == 0
    requires var r := DataPart(g, s, junk);
      r.DataResult? && Stalls(r.outcome) && !MachineData.NextData(g, img, s, dp, r.outcome).Caching?
    ensures DataPart(g, s, junk).cache == s.dcache
  {
    var m := s.pipe.m;
    var w := MachineData.DataWalk(g, s, junk);
    if w.Walk? && (w.status == Tlb.HIT || w.status == Tlb.START) {
      CodeTwoKeeps(s.dcache, w.mem, CacheSessions.Load(w.output, m.size), m.wasStalled == 1, w.status == Tlb.HIT);
    }
  }

  lemma CodeTwoKeeps(c: Cache.Table, m: Mem, q: CacheSessions.Request, followup: bool, available: bool)
    requires c.Valid() && q.Load?
    ensures var r := CacheSessions.Present(c, m, q, followup, available); r.Stall? && r.code == 2 ==> r.cache == c
  {
  }

  /** The load's stall holds it in W, and then puts it back into M. */
  lemma LoadIsHeld(exec: Handlers, p: Pipe, data: DataOutcome, fetch: FetchOutcome, data': DataOutcome,
      fetch': FetchOutcome)
    requires p.Valid() && p.w.stall == 0 && p.w.tainted == 0 && p.m.readWrite == LOAD && Stalls(data)
    ensures PipelineStalls.GetsPast(exec, p, data) == NoEffect
    ensures var p1 := Pipeline.Cycle(exec, p, data, fetch);
      var p2 := Pipeline.Cycle(exec, p1, data', fetch');
      && p1.w.stall != 0 && p1.w.tainted > 0 && p2.w.stall == 0
      && p2.m.readWrite == LOAD && p2.m.address == p.m.address && p2.m.size == p.m.size && p2.m.pc == p.m.pc
  {
  }

  /** Both cycles of the round fetch what hits. */
  ghost predicate HitsInRound(g: Setting, img: Image, x: Live, r: Round)
    requires x.s.Valid()
  {
    r.Two? && FetchHits(g, img, x.s) && FetchHits(g, img, Next(g, img, x, r.j).s)
  }

  /** After the first cycle. */
  ghost predicate Held(g: Setting, img: Image, x: Live, y: Live)
    requires x.s.Valid()
  {
    && LiveSound(g, img, y) && y.fp == Resting && y.s.pipe.w.stall != 0 && y.s.pipe.w.tainted > 0
    && (!y.dp.Caching? ==> CacheFit(y.s.dcache, img.bytes, Asked(g, img, x.s.pipe.m)))
  }

  /** A block once asked for is waited for. */
  lemma FillGoesOn(g: Setting, img: Image, s: State, dp: Phase, junk: Quad)
    requires s.Valid() && s.pipe.m.readWrite == LOAD && s.pipe.w.tainted == 0 && dp.Caching?
    requires DataPhase(g, img, s.dtlb, s.pipe.m, dp) && TlbProofs.Coherent(s.dtlb, img.bytes, g.ptbr)
    requires var r := DataPart(g, s, junk); r.DataResult? && Stalls(r.outcome)
    ensures MachineData.NextData(g, img, s, dp, DataPart(g, s, junk).outcome).Caching?
  {
    var m := s.pipe.m;
    var mem := s.mem.(stage := Access);
    ModTwice(m.address);
    HitTranslates(g, img, s.dtlb, mem, m.address % TWO32, junk);
    MachineData.AvailableCode(s.dcache, mem, Asked(g, img, m), true);
  }

  lemma FirstCycleRuns(g: Setting, img: Image, x: Live, j: Junk, y: Live)
    requires Loading(g, img, x) && HandlersOk(WorldOf(g, img)) && FetchHits(g, img, x.s) && y == Next(g, img, x, j)
    ensures CycleOk(g, img, x.s, x.fp, x.dp, j) && Core.Cycle(g, x.s, j) == Some(y.s) && LiveSound(g, img, y)
    ensures y.fp == Resting && DataPart(g, x.s, j.0).DataResult?
    ensures y.s.pipe == Pipeline.Cycle(g.exec, x.s.pipe, DataOutcomeIn(g, x.s, j), FetchOutcomeIn(g, x.s, j))
    ensures y.dp == MachineData.NextData(g, img, x.s, x.dp, DataOutcomeIn(g, x.s, j))
    ensures y.s.dcache == DataPart(g, x.s, j.0).cache
  {
    LoadCycleOk(g, img, x, j);
    var t := CycleSound(g, img, x.s, x.fp, x.dp, j);
    HitRests(g, img, x.s, x.fp, x.dp, j);
  }

  lemma FirstCycle(g: Setting, img: Image, x: Live, j: Junk, y: Live)
    requires Loading(g, img, x) && HandlersOk(WorldOf(g, img)) && FetchHits(g, img, x.s)
    requires Stalls(DataOutcomeIn(g, x.s, j)) && y == Next(g, img, x, j)
    ensures CycleOk(g, img, x.s, x.fp, x.dp, j) && Core.Cycle(g, x.s, j) == Some(y.s) && Held(g, img, x, y)
    ensures y.s.pipe == Pipeline.Cycle(g.exec, x.s.pipe, DataOutcomeIn(g, x.s, j), FetchOutcomeIn(g, x.s, j))
  {
    FirstCycleRuns(g, img, x, j, y);
    LoadIsHeld(g.exec, x.s.pipe, DataOutcomeIn(g, x.s, j), FetchOutcomeIn(g, x.s, j), Stored, FetchMiss(1));
    if !y.dp.Caching? {
      StallKeepsCache(g, img, x.s, x.dp, j.0);
      if x.dp.Caching? {
        FillGoesOn(g, img, x.s, x.dp, j.0);
      }
    }
  }

  lemma SecondCycle(g: Setting, img: Image, x: Live, y: Live, k: Junk, z: Live)
    requires x.s.Valid() && Held(g, img, x, y) && HandlersOk(WorldOf(g, img)) && FetchHits(g, img, y.s)
    requires z == Next(g, img, y, k)
    ensures CycleOk(g, img, y.s, y.fp, y.dp, k) && Core.Cycle(g, y.s, k) == Some(z.s)
    ensures LiveSound(g, img, z) && z.fp == Resting && z.dp == y.dp && z.s.dcache == y.s.dcache
    ensures z.s.pipe == Pipeline.Cycle(g.exec, y.s.pipe, DataOutcomeIn(g, y.s, k), FetchOutcomeIn(g, y.s, k))
  {
    HitIsOk(g, img, y.s, FetchMem(g, y.s, k.0), k.1);
    var t := CycleSound(g, img, y.s, y.fp, y.dp, k);
    HitRests(g, img, y.s, y.fp, y.dp, k);
  }

  lemma TwoIsOk(g: Setting, img: Image, x: Live, r: Round)
    requires x.s.Valid() && r.Two? && Presents(x.s) && x.s.pipe.m.readWrite == LOAD
    requires Stalls(DataOutcomeIn(g, x.s, r.j))
    requires PipelineStalls.KeepsSources(CodeAt(g, img, x.s.pipe.m.pc)) && CycleOk(g, img, x.s, x.fp, x.dp, r.j)
    requires var y := Next(g, img, x, r.j); CycleOk(g, img, y.s, y.fp, y.dp, r.k)
    ensures RoundOk(g, img, x, r)
  {
  }

  /** A round in which the load stalls is orderly, and leaves it in M. */
  lemma LoadRound(g: Setting, img: Image, x: Live, r: Round)
    requires Loading(g, img, x) && HandlersOk(WorldOf(g, img)) && HitsInRound(g, img, x, r)
    requires Stalls(DataOutcomeIn(g, x.s, r.j))
    ensures RoundOk(g, img, x, r) && Loading(g, img, After(g, img, x, r))
  {
    var y := Next(g, img, x, r.j);
    FirstCycle(g, img, x, r.j, y);
    var z := Next(g, img, y, r.k);
    SecondCycle(g, img, x, y, r.k, z);
    TwoIsOk(g, img, x, r);
    LoadIsHeld(g.exec, x.s.pipe, DataOutcomeIn(g, x.s, r.j), FetchOutcomeIn(g, x.s, r.j),
               DataOutcomeIn(g, y.s, r.k), FetchOutcomeIn(g, y.s, r.k));
    SameAsked(g, img, x.s.pipe.m, z.s.pipe.m);
  }

  lemma SameAsked(g: Setting, img: Image, m: MReg, m': MReg)
    requires m.readWrite == LOAD && m'.readWrite == LOAD && m'.address == m.address && m'.size == m.size
    ensures Asked(g, img, m') == Asked(g, img, m)
  {
  }

  ghost predicate AllHits(g: Setting, img: Image, x: Live, rounds: seq<Round>)
    requires x.s.Valid()
    decreases |rounds|
  {
    rounds == [] || (HitsInRound(g, img, x, rounds[0]) && AllHits(g, img, After(g, img, x, rounds[0]), rounds[1..]))
  }

  /** As many rounds as one likes, as long as fetch hits in them, are orderly, until one in which the load is
      answered. */
  lemma {:induction false} LoadIsOrderly(g: Setting, img: Image, x: Live, rounds: seq<Round>)
    returns (done: seq<Round>, y: Live)
    requires Loading(g, img, x) && HandlersOk(WorldOf(g, img)) && AllHits(g, img, x, rounds)
    ensures done <= rounds && AllRoundsOk(g, img, x, done) && y == AfterAll(g, img, x, done) && Loading(g, img, y)
    ensures |done| < |rounds| ==> !Stalls(DataOutcomeIn(g, y.s, rounds[|done|].j))
    decreases |rounds|
  {
    if rounds == [] || !Stalls(DataOutcomeIn(g, x.s, rounds[0].j)) {
      done, y := [], x;
    } else {
      LoadRound(g, img, x, rounds[0]);
      var rest;
      rest, y := LoadIsOrderly(g, img, After(g, img, x, rounds[0]), rounds[1..]);
      done := [rounds[0]] + rest;
      LongerPrefix(rest, rounds);
      RoundThenRest(g, img, x, rounds[0], rest, done);
    }
  }
}
