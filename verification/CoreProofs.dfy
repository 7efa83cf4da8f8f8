/** The whole machine against the sequential one: translation, both caches, memory and pipeline together,
    through page walks, cache misses, write-backs and replays. */
module CoreProofs {
  import opened Words
  import opened Memory
  import opened Traffic
  import opened Pipeline
  import opened PipelineProofs
  import Tlb
  import TlbProofs
  import Cache
  import CacheSessions
  import opened Core
  import opened MachineState
  import MachineData
  import opened MachineBehind
  import MachineFetch

  // ---------------------------------------------------------------- one cycle

  /** The memory stage presents an access: not in the second cycle of a replay, nor without one. */
  predicate Presents(s: State) {
    s.pipe.w.stall == 0 && IsAccess(s.pipe.m)
  }

  function DataNext(g: Setting, img: Image, s: State, dp: Phase, junk: Quad): Phase
    requires s.Valid()
  {
    var r := DataPart(g, s, junk);
    if Presents(s) && r.DataResult? then MachineData.NextData(g, img, s, dp, r.outcome) else dp
  }

  /** Memory as fetch finds it. */
  function FetchMem(g: Setting, s: State, junk: Quad): Mem
    requires s.Valid()
  {
    var r := DataPart(g, s, junk);
    (if r.DataResult? then r.mem else s.mem).(stage := Fetch)
  }

  function FetchNext(g: Setting, img: Image, s: State, fp: Phase, j: (Quad, Quad)): Phase
    requires s.Valid()
  {
    var mem := FetchMem(g, s, j.0);
    var r := FetchPart(g, s, mem, j.1);
    if r.FetchAccessResult? then
      MachineFetch.NextFetch(g, img, s.icache, mem, fp, FetchPc(g.exec, s.pipe) % TWO32, r.fetched)
    else fp
  }

  /** Both stages' accesses are dealt with as intended, that of an instruction let past a waiting store included. */
  ghost predicate CycleOk(g: Setting, img: Image, s: State, fp: Phase, dp: Phase, j: (Quad, Quad))
    requires s.Valid()
  {
    && (Presents(s) ==> MachineData.DataOk(g, img, s, dp, j.0))
    && (Behind(s) ==> BehindOk(g, img, s, dp))
    && MachineFetch.FetchOk(g, img, s.itlb, s.icache, FetchMem(g, s, j.0), s.pipe.d, FetchPc(g.exec, s.pipe) % TWO32,
        fp, j.1)
  }

  /** What the memory stage's part of the cycle leaves, whether or not it presented anything. */
  ghost predicate DataPartDone(g: Setting, img: Image, s: State, fp: Phase, dp: Phase, junk: Quad, own: Option<Slot>)
    requires s.Valid()
  {
    var r := DataPart(g, s, junk);
    var next := DataNext(g, img, s, dp, junk);
    && r.DataResult? && r.cache.Valid()
    && MachineData.AfterData(g, img, s.mem.(stage := Access), s.icache, fp, next, r, own)
    && (Presents(s) ==> MachineData.DataMeans(g, img, s.pipe.m, FlatIn(s, dp), next, r))
    && (Behind(s) ==> r.tlb == s.dtlb && BehindMeans(g, img, s.pipe.m, FlatIn(s, dp), dp, r))
    && (!Presents(s) && !Behind(s) ==> r == DataResult(Stored, s.dtlb, s.dcache, s.mem.(stage := Access)))
  }

  lemma QuietData(g: Setting, img: Image, s: State, fp: Phase, dp: Phase, junk: Quad) returns (own: Option<Slot>)
    requires Sound(g, img, s, fp, dp) && !Presents(s) && !Behind(s)
    ensures DataPartDone(g, img, s, fp, dp, junk, own)
  {
    var mem := s.mem.(stage := Access);
    own := ClaimOf(dp, s.dcache);
    SameSlots(s.mem, mem, own, ClaimOf(fp, s.icache));
    ClaimIsLive(g, img, s.dtlb, Accessing(s.pipe), dp, s.dcache);
    QuietAfter(g, img, s, fp, dp, mem, own);
    assert DataPart(g, s, junk) == DataResult(Stored, s.dtlb, s.dcache, mem);
  }

  lemma QuietAfter(g: Setting, img: Image, s: State, fp: Phase, dp: Phase, mem: Mem, own: Option<Slot>)
    requires s.Valid() && mem == s.mem.(stage := Access) && Agrees(img, s.mem.bytes)
    requires TlbProofs.Coherent(s.dtlb, img.bytes, g.ptbr)
    requires CacheSessions.SessionInv(s.icache, s.mem, CachePhase(fp))
    requires CacheSessions.SessionInv(s.dcache, s.mem, CachePhase(dp)) && DirtyOutside(img, s.dcache)
    requires Shared(mem, own, ClaimOf(fp, s.icache)) && own == ClaimOf(dp, s.dcache) && Pending(own) == own
    ensures MachineData.AfterData(g, img, mem, s.icache, fp, dp, DataResult(Stored, s.dtlb, s.dcache, mem), own)
  {
    SessionMoves(s.dcache, s.mem, mem, CachePhase(dp));
    SessionMoves(s.icache, s.mem, mem, CachePhase(fp));
  }

  lemma DataPartStep(g: Setting, img: Image, s: State, fp: Phase, dp: Phase, j: (Quad, Quad))
    returns (own: Option<Slot>)
    requires Sound(g, img, s, fp, dp) && CycleOk(g, img, s, fp, dp, j)
    ensures DataPartDone(g, img, s, fp, dp, j.0, own)
  {
    if Presents(s) {
      own := MachineData.DataStep(g, img, s, fp, dp, j.0);
    } else if Behind(s) {
      own := BehindStep(g, img, s, fp, dp, j.0);
    } else {
      own := QuietData(g, img, s, fp, dp, j.0);
    }
  }

  /** What fetch's part of the cycle leaves. */
  ghost predicate FetchPartDone(g: Setting, img: Image, s: State, fp: Phase, j: (Quad, Quad), other: Option<Slot>,
      own: Option<Slot>)
    requires s.Valid()
  {
    var mem := FetchMem(g, s, j.0);
    var r := FetchPart(g, s, mem, j.1);
    var next := FetchNext(g, img, s, fp, j);
    && r.FetchAccessResult?
    && MachineFetch.AfterFetch(g, img, mem, other, next, r, own)
    && MachineFetch.FetchMeans(g, img, s.pipe.d, FetchPc(g.exec, s.pipe) % TWO32, next, r)
  }

  lemma FetchSideOf(g: Setting, img: Image, s: State, fp: Phase, dp: Phase, j: (Quad, Quad), own: Option<Slot>)
    requires Sound(g, img, s, fp, dp) && DataPartDone(g, img, s, fp, dp, j.0, own)
    ensures MachineFetch.FetchSide(g, img, s.itlb, s.icache, FetchMem(g, s, j.0), s.pipe.d,
        FetchPc(g.exec, s.pipe) % TWO32, fp, own)
  {
    var r := DataPart(g, s, j.0);
    var mem := FetchMem(g, s, j.0);
    SameSlots(r.mem, mem, own, ClaimOf(fp, s.icache));
    SessionMoves(s.icache, r.mem, mem, CachePhase(fp));
  }

  lemma FetchPartStep(g: Setting, img: Image, s: State, fp: Phase, dp: Phase, j: (Quad, Quad), other: Option<Slot>)
    returns (own: Option<Slot>)
    requires Sound(g, img, s, fp, dp) && CycleOk(g, img, s, fp, dp, j) && DataPartDone(g, img, s, fp, dp, j.0, other)
    ensures FetchPartDone(g, img, s, fp, j, other, own)
  {
    FetchSideOf(g, img, s, fp, dp, j, other);
    own := MachineFetch.FetchStep(g, img, s.itlb, s.icache, FetchMem(g, s, j.0), s.pipe.d, FetchPc(g.exec, s.pipe),
        fp, other, j.1);
    FetchPartIs(g, s, j);
  }

  lemma FetchPartIs(g: Setting, s: State, j: (Quad, Quad))
    requires s.Valid()
    ensures FetchPart(g, s, FetchMem(g, s, j.0), j.1)
      == FetchAccess(g.ptbr, s.itlb, s.icache, FetchMem(g, s, j.0), s.pipe.d, FetchPc(g.exec, s.pipe), j.1)
  {
  }

  /** The state after a cycle that did not end the program. */
  function Advanced(g: Setting, s: State, j: (Quad, Quad)): (t: State)
    requires s.Valid() && DataPart(g, s, j.0).DataResult?
    requires FetchPart(g, s, FetchMem(g, s, j.0), j.1).FetchAccessResult?
    ensures t.Valid() && Core.Cycle(g, s, j) == Some(t)
  {
    var data := DataPart(g, s, j.0);
    var fetch := FetchPart(g, s, FetchMem(g, s, j.0), j.1);
    State(Pipeline.Cycle(g.exec, s.pipe, data.outcome, fetch.fetched), fetch.tlb, data.tlb, fetch.cache, data.cache,
        EndCycle(fetch.mem))
  }

  // ---------------------------------------------------------------- what the pipeline makes of it

  /** The second cycle of a replay puts the access back into M. */
  lemma ReplayLands(exec: Handlers, p: Pipe, outcome: DataOutcome, fetched: FetchOutcome)
    requires p.Valid() && p.w.stall != 0 && (p.w.tainted > 0 || !IsAccess(p.m) || !Stalls(outcome))
    ensures Accessing(Pipeline.Cycle(exec, p, outcome, fetched)) == p.w.memory.(tainted := 1)
  {
  }

  lemma StallHolds(exec: Handlers, p: Pipe, outcome: DataOutcome, fetched: FetchOutcome)
    requires p.Valid() && p.w.stall == 0 && p.w.tainted == 0 && IsAccess(p.m) && Stalls(outcome)
    ensures Accessing(Pipeline.Cycle(exec, p, outcome, fetched)) == Replay(p.m, outcome)
  {
  }

  lemma AccessIsNew(exec: Handlers, p: Pipe, outcome: DataOutcome, fetched: FetchOutcome)
    requires p.Valid() && p.w.stall == 0 && p.w.tainted == 0 && (IsAccess(p.m) ==> !Stalls(outcome))
    ensures Accessing(Pipeline.Cycle(exec, p, outcome, fetched)).wasStalled == 0
  {
  }

  /** The access in progress after the cycle is the one the memory stage said it would replay, or a new one. */
  lemma AccessingNext(g: Setting, img: Image, p: Pipe, t: Tlb.Table, dp: Phase, dp': Phase, outcome: DataOutcome,
      fetched: FetchOutcome)
    requires p.Valid() && (p.w.stall == 0 ==> p.w.tainted == 0)
    requires p.w.stall != 0 ==> p.w.tainted > 0 || !IsAccess(p.m) || !Stalls(outcome)
    requires p.w.stall != 0 ==> dp' == dp && DataPhase(g, img, t, p.w.memory, dp)
    requires p.w.stall == 0 && IsAccess(p.m) && Stalls(outcome) ==> DataPhase(g, img, t, Replay(p.m, outcome), dp')
    requires p.w.stall == 0 && (IsAccess(p.m) ==> !Stalls(outcome)) ==> dp' == Resting
    ensures DataPhase(g, img, t, Accessing(Pipeline.Cycle(g.exec, p, outcome, fetched)), dp')
  {
    if p.w.stall != 0 {
      ReplayLands(g.exec, p, outcome, fetched);
      TaintIgnored(g, img, t, p.w.memory, dp);
    } else if IsAccess(p.m) && Stalls(outcome) {
      StallHolds(g.exec, p, outcome, fetched);
    } else {
      AccessIsNew(g.exec, p, outcome, fetched);
    }
  }

  lemma DataPhaseNext(g: Setting, img: Image, s: State, fp: Phase, dp: Phase, junk: Quad, fetched: FetchOutcome,
      own: Option<Slot>)
    requires s.Valid() && Shape(s.pipe) && DataPhase(g, img, s.dtlb, Accessing(s.pipe), dp)
    requires DataPartDone(g, img, s, fp, dp, junk, own)
    ensures var r := DataPart(g, s, junk);
      DataPhase(g, img, r.tlb, Accessing(Pipeline.Cycle(g.exec, s.pipe, r.outcome, fetched)),
          DataNext(g, img, s, dp, junk))
  {
    var r := DataPart(g, s, junk);
    AccessingNext(g, img, s.pipe, r.tlb, dp, DataNext(g, img, s, dp, junk), r.outcome, fetched);
  }

  lemma TaintIgnored(g: Setting, img: Image, t: Tlb.Table, m: MReg, dp: Phase)
    requires DataPhase(g, img, t, m, dp)
    ensures DataPhase(g, img, t, m.(tainted := 1), dp)
  {
  }

  lemma FetchPhaseNext(g: Setting, img: Image, s: State, t: Tlb.Table, data: DataOutcome, fetched: FetchOutcome,
      next: Phase)
    requires s.Valid() && FetchPhase(g, img, t, MachineFetch.NextD(s.pipe.d, fetched), next)
    ensures FetchPhase(g, img, t, Pipeline.Cycle(g.exec, s.pipe, data, fetched).d, next)
  {
    var e := ExecuteStage(g.exec, s.pipe);
    MachineFetch.NextDPhase(g, img, t, s.pipe.d, FetchPc(g.exec, s.pipe), e.table, fetched, next);
  }

  /** What fetch brings is honest. */
  lemma FetchIsHonest(g: Setting, img: Image, s: State, fp: Phase, j: (Quad, Quad), other: Option<Slot>,
      own: Option<Slot>)
    requires s.Valid() && FetchPartDone(g, img, s, fp, j, other, own)
    ensures HonestFetch(WorldOf(g, img), s.pipe, FetchPart(g, s, FetchMem(g, s, j.0), j.1).fetched)
  {
    var r := FetchPart(g, s, FetchMem(g, s, j.0), j.1);
    MeansHonest(g, img, s.pipe, FetchNext(g, img, s, fp, j), r);
  }

  lemma MeansHonest(g: Setting, img: Image, p: Pipe, next: Phase, r: FetchAccessResult)
    requires p.Valid() && r.FetchAccessResult?
    requires MachineFetch.FetchMeans(g, img, p.d, FetchPc(g.exec, p) % TWO32, next, r)
    ensures HonestFetch(WorldOf(g, img), p, r.fetched)
  {
    CodeAtWraps(g, img, FetchPc(g.exec, p));
  }

  lemma CodeAtWraps(g: Setting, img: Image, pc: nat)
    ensures CodeAt(g, img, pc % TWO32) == CodeAt(g, img, pc)
  {
    ModTwice(pc);
  }

  // ---------------------------------------------------------------- the invariant after a cycle

  /** Memory and the caches at the start of the next cycle. */
  lemma MemoryNext(g: Setting, img: Image, s: State, fp: Phase, dp: Phase, j: (Quad, Quad), dataOwn: Option<Slot>,
      fetchOwn: Option<Slot>)
    requires s.Valid() && DataPartDone(g, img, s, fp, dp, j.0, dataOwn)
    requires FetchPartDone(g, img, s, fp, j, dataOwn, fetchOwn)
    ensures var t := Advanced(g, s, j);
      var fp', dp' := FetchNext(g, img, s, fp, j), DataNext(g, img, s, dp, j.0);
      && t.mem.issued == {} && Agrees(img, t.mem.bytes)
      && Shared(t.mem, ClaimOf(dp', t.dcache), ClaimOf(fp', t.icache))
      && CacheSessions.SessionInv(t.icache, t.mem, CachePhase(fp'))
          && CacheSessions.SessionInv(t.dcache, t.mem, CachePhase(dp'))
  {
    var data := DataPart(g, s, j.0);
    var fetch := FetchPart(g, s, FetchMem(g, s, j.0), j.1);
    SessionsTick(fetch.cache, fetch.mem, FetchNext(g, img, s, fp, j), fetchOwn, data.cache, data.mem,
        DataNext(g, img, s, dp, j.0), dataOwn);
  }

  /** The end of the cycle, with both stages' requests. */
  lemma SessionsTick(c: Cache.Table, m: Mem, fp: Phase, fetchOwn: Option<Slot>, d: Cache.Table, n: Mem, dp: Phase,
      dataOwn: Option<Slot>)
    requires CacheSessions.SessionInv(c, m, CachePhase(fp)) && CacheSessions.SessionInv(d, n, CachePhase(dp))
    requires m.bytes == n.bytes
    requires Shared(m, dataOwn, fetchOwn) && Pending(fetchOwn) == ClaimOf(fp, c) && Pending(dataOwn) == ClaimOf(dp, d)
    ensures var r := EndCycle(m);
      && Shared(r, ClaimOf(dp, d), ClaimOf(fp, c))
      && CacheSessions.SessionInv(c, r, CachePhase(fp)) && CacheSessions.SessionInv(d, r, CachePhase(dp))
  {
    TickShared(m, dataOwn, fetchOwn);
    SessionMoves(c, m, EndCycle(m), CachePhase(fp));
    SessionMoves(d, n, EndCycle(m), CachePhase(dp));
  }

  lemma SoundAfter(g: Setting, img: Image, s: State, fp: Phase, dp: Phase, j: (Quad, Quad), dataOwn: Option<Slot>,
      fetchOwn: Option<Slot>)
    requires Sound(g, img, s, fp, dp) && CycleOk(g, img, s, fp, dp, j) && HandlersOk(WorldOf(g, img))
    requires DataPartDone(g, img, s, fp, dp, j.0, dataOwn) && FetchPartDone(g, img, s, fp, j, dataOwn, fetchOwn)
    ensures Sound(g, img, Advanced(g, s, j), FetchNext(g, img, s, fp, j), DataNext(g, img, s, dp, j.0))
  {
    var data := DataPart(g, s, j.0);
    var fetch := FetchPart(g, s, FetchMem(g, s, j.0), j.1);
    MemoryNext(g, img, s, fp, dp, j, dataOwn, fetchOwn);
    DataPhaseNext(g, img, s, fp, dp, j.0, fetch.fetched, dataOwn);
    FetchPhaseNext(g, img, s, fetch.tlb, data.outcome, fetch.fetched, FetchNext(g, img, s, fp, j));
    ShapeKept(WorldOf(g, img), s.pipe, data.outcome, fetch.fetched);
  }

  /** What a cycle tells the pipeline: an honest fetch, and data as the flat memory has it. */
  ghost predicate CycleTells(g: Setting, img: Image, s: State, dp: Phase, j: (Quad, Quad), t: State, dp': Phase)
    requires s.Valid() && t.Valid()
  {
    var u := WorldOf(g, img);
    var data := DataPart(g, s, j.0);
    var fetch := FetchPart(g, s, FetchMem(g, s, j.0), j.1);
    && data.DataResult? && fetch.FetchAccessResult?
    && t.pipe == Pipeline.Cycle(g.exec, s.pipe, data.outcome, fetch.fetched) && HonestFetch(u, s.pipe, fetch.fetched)
    && (Presents(s) && !Stalls(data.outcome) ==>
          && FlatIn(t, dp') == MachineData.Stored(g, img, s.pipe.m, FlatIn(s, dp))
          && (s.pipe.m.readWrite == LOAD && SizeOk(s.pipe.m.size) ==>
                data.outcome == Loaded(u.load(FlatIn(s, dp), s.pipe.m.address)[..s.pipe.m.size]))
          && (s.pipe.m.readWrite == STORE ==> data.outcome == Stored))
    && (Behind(s) ==> BehindTells(g, img, s.pipe.m, FlatIn(s, dp), data.outcome, FlatIn(t, dp')))
    && (!(Presents(s) && !Stalls(data.outcome)) && !Behind(s) ==> FlatIn(t, dp') == FlatIn(s, dp))
  }

  /** One cycle: the machine goes on, keeps its invariant, and tells the pipeline the truth. */
  lemma CycleSound(g: Setting, img: Image, s: State, fp: Phase, dp: Phase, j: (Quad, Quad)) returns (t: State)
    requires Sound(g, img, s, fp, dp) && CycleOk(g, img, s, fp, dp, j) && HandlersOk(WorldOf(g, img))
    ensures t.Valid() && Core.Cycle(g, s, j) == Some(t)
    ensures Sound(g, img, t, FetchNext(g, img, s, fp, j), DataNext(g, img, s, dp, j.0))
    ensures CycleTells(g, img, s, dp, j, t, DataNext(g, img, s, dp, j.0))
  {
    var dataOwn := DataPartStep(g, img, s, fp, dp, j);
    var fetchOwn := FetchPartStep(g, img, s, fp, dp, j, dataOwn);
    t := Advanced(g, s, j);
    SoundAfter(g, img, s, fp, dp, j, dataOwn, fetchOwn);
    FetchIsHonest(g, img, s, fp, j, dataOwn, fetchOwn);
    TellsAfter(g, img, s, fp, dp, j, dataOwn, fetchOwn);
  }

  lemma TellsAfter(g: Setting, img: Image, s: State, fp: Phase, dp: Phase, j: (Quad, Quad), dataOwn: Option<Slot>,
      fetchOwn: Option<Slot>)
    requires s.Valid() && Shape(s.pipe) && DataPartDone(g, img, s, fp, dp, j.0, dataOwn)
    requires FetchPartDone(g, img, s, fp, j, dataOwn, fetchOwn)
    requires HonestFetch(WorldOf(g, img), s.pipe, FetchPart(g, s, FetchMem(g, s, j.0), j.1).fetched)
    ensures CycleTells(g, img, s, dp, j, Advanced(g, s, j), DataNext(g, img, s, dp, j.0))
  {
    var data := DataPart(g, s, j.0);
    var t := Advanced(g, s, j);
    var dp' := DataNext(g, img, s, dp, j.0);
    assert FlatIn(t, dp') == CacheSessions.FlatOf(data.cache, data.mem, CachePhase(dp'));
  }
}
