/** The memory stage of the whole machine: translation, then the data cache, next to whatever fetch waits for. */
module MachineData {
  import opened Words
  import opened Memory
  import MemoryProofs
  import opened Traffic
  import opened Pipeline
  import PipelineProofs
  import Tlb
  import TlbProofs
  import SharedWalk
  import Cache
  import CacheProofs
  import CacheSessions
  import SharedCache
  import opened Core
  import opened MachineState

  /** What the memory stage waits for after it presented its access. */
  function NextData(g: Setting, img: Image, s: State, dp: Phase, outcome: DataOutcome): Phase
    requires s.Valid()
  {
    var m := s.pipe.m;
    var va := m.address % TWO32;
    match outcome
    case DataTlbStall(st) => Walking(AskOf(g, img, va), st, SharedWalk.NextEnd(StatusOf(dp), st, EndOf(dp), s.mem))
    case DataMiss(code) =>
      if code == 2 then Resting
      else Caching(va, CacheSessions.NextPhase(s.dcache, s.mem, CachePhase(dp), Asked(g, img, m),
          Cache.Stall(s.dcache, s.mem, 1)))
    case _ => Resting
  }

  function DataWalk(g: Setting, s: State, junk: Quad): Tlb.Walk
    requires s.Valid()
  {
    var m := s.pipe.m;
    Tlb.GetAddress(g.ptbr, s.dtlb, s.mem.(stage := Access), m.address % TWO32, DataStatus(m), junk)
  }

  /** The access is one the machine deals with as intended: its address translates, a store is not to the text,
      the cache is asked only for what it answers faithfully, and no request for what is asked of memory is
      already in the table. */
  ghost predicate DataOk(g: Setting, img: Image, s: State, dp: Phase, junk: Quad)
    requires s.Valid()
  {
    var m := s.pipe.m;
    var va := m.address % TWO32;
    var q := Asked(g, img, m);
    && Translatable(g, img, va) && (m.readWrite == STORE ==> !img.text(q.address / 8))
    && match dp
       case Resting =>
         if Tlb.Hits(s.dtlb, va) then
           && SharedCache.Suits(s.dcache, s.mem.bytes, q, true)
           && (SharedCache.Wanted(s.dcache, q).Some? ==>
               MemoryProofs.Fresh(s.mem.slots, SharedCache.Wanted(s.dcache, q).value))
         else MemoryProofs.Fresh(s.mem.slots, AskOf(g, img, va).FirstAt())
       case Walking(a, status, _) =>
         && (status == Tlb.HELD ==> MemoryProofs.Fresh(s.mem.slots, a.SecondAt()))
         && (DataWalk(g, s, junk).Walk? && DataWalk(g, s, junk).status == Tlb.START ==>
               SharedCache.Suits(s.dcache, s.mem.bytes, q, false))
       case Caching(_, _) => true
  }

  /** Memory, translation and cache after the memory stage, with fetch still to come. */
  ghost predicate AfterData(g: Setting, img: Image, before: Mem, icache: Cache.Table, fp: Phase, next: Phase,
      r: DataResult, own: Option<Slot>)
    requires icache.Valid()
  {
    && r.DataResult? && r.tlb.Valid() && r.cache.Valid() && r.cache.kind == Cache.Data
    && Agrees(img, r.mem.bytes) && SameClock(before, r.mem)
    && TlbProofs.Coherent(r.tlb, img.bytes, g.ptbr)
    && CacheSessions.SessionInv(r.cache, r.mem, CachePhase(next)) && DirtyOutside(img, r.cache)
    && CacheSessions.SessionInv(icache, r.mem, CachePhase(fp))
    && Shared(r.mem, own, ClaimOf(fp, icache)) && Pending(own) == ClaimOf(next, r.cache)
  }

  /** The flat memory after the access is done. */
  function Stored(g: Setting, img: Image, m: MReg, flat: seq<byte>): seq<byte> {
    if m.readWrite == STORE then StoreTo(g, img, flat, m.address, m.size, m.value) else flat
  }

  /** What the outcome means: a stall changes nothing the program sees and leaves the access to be replayed; a
      load brings the flat memory's bytes, a store changes them. */
  ghost predicate DataMeans(g: Setting, img: Image, m: MReg, flat: seq<byte>, next: Phase, r: DataResult)
    requires r.DataResult? && r.cache.Valid()
  {
    var flat' := CacheSessions.FlatOf(r.cache, r.mem, CachePhase(next));
    && (Stalls(r.outcome) ==> flat' == flat && DataPhase(g, img, r.tlb, Replay(m, r.outcome), next))
    && (!Stalls(r.outcome) ==>
          && next == Resting && flat' == Stored(g, img, m, flat)
          && (m.readWrite == LOAD && PipelineProofs.SizeOk(m.size) ==>
                r.outcome == Loaded(LoadFrom(g, img, flat, m.address)[..m.size]))
          && (m.readWrite == STORE ==> r.outcome == Pipeline.Stored))
  }

  /** What fetch waits for is not disturbed by changes outside the text. */
  ghost predicate FetchSide(img: Image, c: Cache.Table, m: Mem, fp: Phase) {
    && CacheSessions.SessionInv(c, m, CachePhase(fp)) && c.kind == Cache.Instruction && RowsFixed(img, c)
    && !CachePhase(fp).WritingBack? && Agrees(img, m.bytes)
  }

  lemma FetchKept(img: Image, c: Cache.Table, fp: Phase, m: Mem, r: Mem, own: Option<Slot>)
    requires FetchSide(img, c, m, fp) && Agrees(img, r.bytes) && Shared(r, own, ClaimOf(fp, c))
    ensures CacheSessions.SessionInv(c, r, CachePhase(fp))
  {
    InstructionsKept(img, c, m, r, CachePhase(fp));
  }

  // ---------------------------------------------------------------- walking

  /** A walk that goes on. */
  lemma WalkStalls(g: Setting, img: Image, t: Tlb.Table, c: Cache.Table, mem: Mem, m: MReg, icache: Cache.Table,
      fp: Phase,
                   status: byte, end: nat, w: Tlb.Walk, own: Option<Slot>)
    requires t.Valid() && TlbProofs.Coherent(t, img.bytes, g.ptbr) && FetchSide(img, icache, mem, fp) && IsAccess(m)
    requires CacheSessions.SessionInv(c, mem, CacheSessions.Idle) && c.kind == Cache.Data && DirtyOutside(img, c)
    requires Translatable(g, img, m.address % TWO32)
    requires var a := AskOf(g, img, m.address % TWO32);
      && SharedWalk.Stepped(a, t, mem, status, end, ClaimOf(fp, icache), w, own)
      && SharedWalk.Moved(a, t, mem, status, end, w, own)
    ensures var next := Walking(AskOf(g, img, m.address % TWO32), w.status,
        SharedWalk.NextEnd(status, w.status, end, mem));
      var r := DataResult(DataTlbStall(w.status), w.table, c, w.mem);
      && AfterData(g, img, mem, icache, fp, next, r, own)
      && DataMeans(g, img, m, CacheSessions.FlatOf(c, mem, CacheSessions.Idle), next, r)
  {
    SameEntriesCoherent(t, w.table, img.bytes, g.ptbr);
    FetchKept(img, icache, fp, mem, w.mem, own);
  }

  // ---------------------------------------------------------------- the cache

  lemma LoadedPrefix(g: Setting, img: Image, flat: seq<byte>, a: nat, n: nat)
    requires Translate(g, img, a).Some? && n <= 8 && Translate(g, img, a).value + n <= |flat|
    ensures var p := Translate(g, img, a).value; LoadFrom(g, img, flat, a)[..n] == flat[p..p + n]
  {
  }

  /** Only stores outside the text make rows dirty. */
  lemma DirtyKept(img: Image, c: Cache.Table, d: Cache.Table, q: CacheSessions.Request)
    requires c.Valid() && d.Valid() && c.kind == Cache.Data && DirtyOutside(img, c)
    requires SharedCache.RowsMove(c, d, c.Split(q.address), q.Store?) && (q.Store? ==> !img.text(q.address / 8))
    ensures DirtyOutside(img, d)
  {
    forall k | 0 <= k < |d.rows| && d.rows[k].dirty ensures !img.text(CacheProofs.RowBase(d, k) / 8) {
      assert SharedCache.RowMoves(c, d, c.Split(q.address), q.Store?, k);
      if d.rows[k].tag == c.Split(q.address).tag && CacheProofs.SetOf(c, k) == c.Split(q.address).set_ {
        DataBlockOf(c, q.address);
      }
    }
  }

  lemma DataBlockOf(c: Cache.Table, x: nat)
    requires c.Valid() && c.kind == Cache.Data
    ensures var p := c.Split(x); c.Base(p.tag, p.set_) / 8 == x / 8
  {
    CacheProofs.SplitJoin(c, x);
    var p := c.Split(x);
    DivModUnique(c.Base(p.tag, p.set_), 8, p.tag * c.numBlocks + p.set_, 0);
    DivModUnique(x, 8, p.tag * c.numBlocks + p.set_, p.off);
  }

  /** Everything known of a cache presentation, translated by `t` and made with memory `mem`. */
  ghost predicate Replied(g: Setting, img: Image, t: Tlb.Table, c: Cache.Table, mem: Mem, m: MReg,
      ph: CacheSessions.Phase,
                          other: Option<Slot>, r: Cache.Access, own: Option<Slot>)
    requires c.Valid()
  {
    var q := Asked(g, img, m);
    && t.Valid() && TlbProofs.Coherent(t, img.bytes, g.ptbr) && Translate(g, img, m.address).Some? && IsAccess(m)
    && c.kind == Cache.Data && DirtyOutside(img, c) && (r.Done? || r.Stall?) && r.cache.Valid()
    && CacheSessions.Answered(c, mem, ph, q, r, CacheSessions.NextPhase(c, mem, ph, q, r))
    && SharedCache.MemoryMoves(c, mem, r.mem) && SharedCache.RowsMove(c, r.cache, c.Split(q.address), q.Store?)
    && Shared(r.mem, own, other) && Pending(own)
        == SharedCache.Claim(r.cache, CacheSessions.NextPhase(c, mem, ph, q, r))
    && (r.Stall? && r.code != 2 ==> r.code == 1 && Tlb.Hits(t, m.address % TWO32))
    && (q.Store? ==> !img.text(q.address / 8)) && (ph != CacheSessions.Idle ==> ph.request == q)
  }

  function AfterReply(g: Setting, img: Image, c: Cache.Table, mem: Mem, m: MReg, ph: CacheSessions.Phase,
      r: Cache.Access): Phase
    requires c.Valid()
  {
    if r.Stall? && r.code != 2 then
      Caching(m.address % TWO32, CacheSessions.NextPhase(c, mem, ph, Asked(g, img, m), Cache.Stall(c, mem, 1)))
    else Resting
  }

  lemma ReplyLeaves(g: Setting, img: Image, t: Tlb.Table, c: Cache.Table, mem: Mem, m: MReg, ph: CacheSessions.Phase,
                    icache: Cache.Table, fp: Phase, before: Mem, r: Cache.Access, own: Option<Slot>)
    requires c.Valid() && icache.Valid() && Replied(g, img, t, c, mem, m, ph, ClaimOf(fp, icache), r, own)
    requires FetchSide(img, icache, mem, fp) && SameClock(before, r.mem)
    ensures AfterData(g, img, before, icache, fp, AfterReply(g, img, c, mem, m, ph, r),
        CacheAnswer(m.readWrite == LOAD, t, r), own)
  {
    DirtyKept(img, c, r.cache, Asked(g, img, m));
    WriteBackAgrees(img, c, mem, r.mem);
    FetchKept(img, icache, fp, mem, r.mem, own);
  }

  lemma ReplyStalls(g: Setting, img: Image, t: Tlb.Table, c: Cache.Table, mem: Mem, m: MReg, ph: CacheSessions.Phase,
                    other: Option<Slot>, r: Cache.Access, own: Option<Slot>)
    requires c.Valid() && Replied(g, img, t, c, mem, m, ph, other, r, own) && r.Stall?
    ensures DataMeans(g, img, m, CacheSessions.FlatOf(c, mem, ph), AfterReply(g, img, c, mem, m, ph, r),
        CacheAnswer(m.readWrite == LOAD, t, r))
  {
    PhaseAfterReply(g, img, c, mem, m, ph, r);
    FlatAfterStall(c, mem, ph, Asked(g, img, m), r, CachePhase(AfterReply(g, img, c, mem, m, ph, r)));
    StallIsReplayed(g, img, t, c, mem, m, ph, r);
  }

  lemma FlatAfterStall(c: Cache.Table, mem: Mem, ph: CacheSessions.Phase, q: CacheSessions.Request, r: Cache.Access,
      next: CacheSessions.Phase)
    requires c.Valid() && r.Stall? && CacheSessions.Answered(c, mem, ph, q, r, next)
    ensures r.cache.Valid() && CacheSessions.FlatOf(r.cache, r.mem, next) == CacheSessions.FlatOf(c, mem, ph)
  {
  }

  lemma StallIsReplayed(g: Setting, img: Image, t: Tlb.Table, c: Cache.Table, mem: Mem, m: MReg,
      ph: CacheSessions.Phase, r: Cache.Access)
    requires c.Valid() && t.Valid() && Translate(g, img, m.address).Some? && IsAccess(m) && r.Stall?
    requires r.code != 2 ==> Tlb.Hits(t, m.address % TWO32)
    requires (m.readWrite == STORE ==> !img.text(Asked(g, img, m).address / 8))
    requires ph != CacheSessions.Idle ==> ph.request == Asked(g, img, m)
    ensures DataPhase(g, img, t, Replay(m, DataMiss(r.code)), AfterReply(g, img, c, mem, m, ph, r))
  {
    ModTwice(m.address);
  }

  lemma PhaseAfterReply(g: Setting, img: Image, c: Cache.Table, mem: Mem, m: MReg, ph: CacheSessions.Phase,
      r: Cache.Access)
    requires c.Valid() && (r.Stall? ==> r.code == 1 || r.code == 2)
    ensures CachePhase(AfterReply(g, img, c, mem, m, ph, r)) == CacheSessions.NextPhase(c, mem, ph, Asked(g, img, m), r)
  {
  }

  lemma ReplyLoads(g: Setting, img: Image, t: Tlb.Table, c: Cache.Table, mem: Mem, m: MReg, ph: CacheSessions.Phase,
                   other: Option<Slot>, r: Cache.Access, own: Option<Slot>)
    requires c.Valid() && Replied(g, img, t, c, mem, m, ph, other, r, own) && r.Done? && m.readWrite == LOAD
    ensures DataMeans(g, img, m, CacheSessions.FlatOf(c, mem, ph), AfterReply(g, img, c, mem, m, ph, r),
        CacheAnswer(true, t, r))
  {
    LoadedPrefix(g, img, CacheSessions.FlatOf(c, mem, ph), m.address, m.size);
  }

  lemma ReplyStores(g: Setting, img: Image, t: Tlb.Table, c: Cache.Table, mem: Mem, m: MReg, ph: CacheSessions.Phase,
                    other: Option<Slot>, r: Cache.Access, own: Option<Slot>)
    requires c.Valid() && Replied(g, img, t, c, mem, m, ph, other, r, own) && r.Done? && m.readWrite == STORE
    ensures DataMeans(g, img, m, CacheSessions.FlatOf(c, mem, ph), AfterReply(g, img, c, mem, m, ph, r),
        CacheAnswer(false, t, r))
  {
  }

  lemma ReplyMeans(g: Setting, img: Image, t: Tlb.Table, c: Cache.Table, mem: Mem, m: MReg, ph: CacheSessions.Phase,
                   other: Option<Slot>, r: Cache.Access, own: Option<Slot>)
    requires c.Valid() && Replied(g, img, t, c, mem, m, ph, other, r, own)
    ensures DataMeans(g, img, m, CacheSessions.FlatOf(c, mem, ph), AfterReply(g, img, c, mem, m, ph, r),
        CacheAnswer(m.readWrite == LOAD, t, r))
  {
    if r.Stall? {
      ReplyStalls(g, img, t, c, mem, m, ph, other, r, own);
    } else if m.readWrite == LOAD {
      ReplyLoads(g, img, t, c, mem, m, ph, other, r, own);
    } else {
      ReplyStores(g, img, t, c, mem, m, ph, other, r, own);
    }
  }

  /** A request made with the stage's access free. */
  lemma AskedReply(g: Setting, img: Image, t: Tlb.Table, c: Cache.Table, mem: Mem, m: MReg, ph: CacheSessions.Phase,
      other: Option<Slot>)
    returns (own: Option<Slot>)
    requires t.Valid() && TlbProofs.Coherent(t, img.bytes, g.ptbr) && Translate(g, img, m.address).Some? && IsAccess(m)
    requires c.Valid() && c.kind == Cache.Data && DirtyOutside(img, c) && Tlb.Hits(t, m.address % TWO32)
    requires SharedCache.MayAsk(c, mem, ph, Asked(g, img, m), m.wasStalled == 1, true, other)
    requires m.readWrite == STORE ==> !img.text(Asked(g, img, m).address / 8)
    ensures Replied(g, img, t, c, mem, m, ph, other,
        CacheSessions.Present(c, mem, Asked(g, img, m), m.wasStalled == 1, true), own)
  {
    var q := Asked(g, img, m);
    own := SharedCache.CacheStep(c, mem, ph, q, m.wasStalled == 1, true, other);
    SharedCache.PresentRows(c, mem, q, m.wasStalled == 1, true);
    AvailableCode(c, mem, q, m.wasStalled == 1);
  }

  lemma AvailableCode(c: Cache.Table, mem: Mem, q: CacheSessions.Request, followup: bool)
    requires c.Valid() && (q.Store? ==> c.kind == Cache.Data)
    ensures var r := CacheSessions.Present(c, mem, q, followup, true); r.Stall? ==> r.code == 1
  {
  }

  /** A lookup after the walk has used the stage's access. */
  lemma LookedUpReply(g: Setting, img: Image, t: Tlb.Table, c: Cache.Table, mem: Mem, m: MReg, other: Option<Slot>,
      own: Option<Slot>)
    requires t.Valid() && TlbProofs.Coherent(t, img.bytes, g.ptbr) && Translate(g, img, m.address).Some? && IsAccess(m)
    requires c.Valid() && c.kind == Cache.Data && DirtyOutside(img, c)
    requires CacheSessions.SessionInv(c, mem, CacheSessions.Idle)
    requires SharedCache.Suits(c, mem.bytes, Asked(g, img, m), false)
    requires Shared(mem, own, other) && Pending(own).None?
    requires m.readWrite == STORE ==> !img.text(Asked(g, img, m).address / 8)
    ensures var r := CacheSessions.Present(c, mem, Asked(g, img, m), m.wasStalled == 1, false);
      Replied(g, img, t, c, mem, m, CacheSessions.Idle, other, r, own) && r.mem == mem
  {
    var q := Asked(g, img, m);
    assert CacheSessions.Legal(c, mem, CacheSessions.Idle, q, m.wasStalled == 1, false);
    CacheSessions.PresentationAnswered(c, mem, CacheSessions.Idle, q, m.wasStalled == 1, false);
    SharedCache.UntouchedIs(c, mem, q, m.wasStalled == 1, false);
    SharedCache.PresentRows(c, mem, q, m.wasStalled == 1, false);
  }

  // ---------------------------------------------------------------- the memory stage

  /** The memory stage has its access to make, at the start of a cycle. */
  ghost predicate SoundAccess(g: Setting, img: Image, s: State, fp: Phase, dp: Phase) {
    Sound(g, img, s, fp, dp) && s.pipe.w.stall == 0 && IsAccess(s.pipe.m)
  }

  /** What the memory stage's part of the cycle amounts to. */
  ghost predicate DataDone(g: Setting, img: Image, s: State, fp: Phase, dp: Phase, junk: Quad, own: Option<Slot>)
    requires s.Valid()
  {
    var r := DataPart(g, s, junk);
    && r.DataResult? && r.cache.Valid()
    && AfterData(g, img, s.mem.(stage := Access), s.icache, fp, NextData(g, img, s, dp, r.outcome), r, own)
    && DataMeans(g, img, s.pipe.m, FlatIn(s, dp), NextData(g, img, s, dp, r.outcome), r)
  }

  /** The parts put together. */
  lemma DataDoneIs(g: Setting, img: Image, s: State, fp: Phase, dp: Phase, junk: Quad, own: Option<Slot>, next: Phase,
      r: DataResult, flat: seq<byte>)
    requires s.Valid() && r == DataPart(g, s, junk) && r.DataResult? && r.cache.Valid()
    requires next == NextData(g, img, s, dp, r.outcome)
    requires flat == FlatIn(s, dp)
    requires AfterData(g, img, s.mem.(stage := Access), s.icache, fp, next, r, own)
    requires DataMeans(g, img, s.pipe.m, flat, next, r)
    ensures DataDone(g, img, s, fp, dp, junk, own)
  {
  }

  lemma NextDataIsAfterReply(g: Setting, img: Image, s: State, dp: Phase, mem: Mem, t: Tlb.Table, r: Cache.Access)
    requires s.Valid() && IsAccess(s.pipe.m) && (r.Done? || r.Stall?) && mem.cycle == s.mem.cycle
    requires mem.readLatency == s.mem.readLatency && mem.writeLatency == s.mem.writeLatency
    ensures var d := CacheAnswer(s.pipe.m.readWrite == LOAD, t, r);
      d.DataResult? && NextData(g, img, s, dp, d.outcome)
          == AfterReply(g, img, s.dcache, mem, s.pipe.m, CachePhase(dp), r)
  {
  }

  predicate Walks(s: State, dp: Phase)
    requires s.Valid()
  {
    dp.Walking? || (dp.Resting? && !Tlb.Hits(s.dtlb, s.pipe.m.address % TWO32))
  }

  lemma WalkingData(g: Setting, img: Image, s: State, fp: Phase, dp: Phase, junk: Quad) returns (own: Option<Slot>)
    requires SoundAccess(g, img, s, fp, dp) && DataOk(g, img, s, dp, junk) && Walks(s, dp)
    ensures SharedWalk.Stepped(AskOf(g, img, s.pipe.m.address % TWO32), s.dtlb, s.mem.(stage := Access), StatusOf(dp),
        EndOf(dp),
                               ClaimOf(fp, s.icache), DataWalk(g, s, junk), own)
  {
    var m := s.pipe.m;
    var va := m.address % TWO32;
    var a := AskOf(g, img, va);
    var mem := s.mem.(stage := Access);
    AskHolds(g, img, s.mem.bytes, va);
    SameSlots(s.mem, mem, ClaimOf(dp, s.dcache), ClaimOf(fp, s.icache));
    if TlbProofs.Issues(StatusOf(dp)) {
      FreshApart(mem, ClaimOf(dp, s.dcache), ClaimOf(fp, s.icache), SharedWalk.NextAddress(a, StatusOf(dp)));
    }
    own := SharedWalk.WalkStep(a, s.dtlb, mem, StatusOf(dp), EndOf(dp), ClaimOf(fp, s.icache), junk);
  }

  lemma FetchSideOf(g: Setting, img: Image, s: State, fp: Phase, dp: Phase, mem: Mem)
    requires Sound(g, img, s, fp, dp) && mem.bytes == s.mem.bytes && mem.Valid()
    requires fp.Caching? ==> MemoryProofs.Tracked(mem, SharedCache.Claim(s.icache, fp.ph).value)
    ensures FetchSide(img, s.icache, mem, fp)
  {
  }

  /** What the memory stage has to work with. */
  ghost predicate DataSide(g: Setting, img: Image, s: State, fp: Phase, dp: Phase, mem: Mem) {
    && s.Valid() && IsAccess(s.pipe.m) && s.pipe.w.tainted == 0 && mem.Valid() && mem.bytes == s.mem.bytes
    && SameClock(s.mem.(stage := Access), mem)
    && TlbProofs.Coherent(s.dtlb, img.bytes, g.ptbr) && FetchSide(img, s.icache, mem, fp)
    && CacheSessions.SessionInv(s.dcache, mem, CachePhase(dp)) && DirtyOutside(img, s.dcache)
    && Translatable(g, img, s.pipe.m.address % TWO32)
    && (s.pipe.m.readWrite == STORE ==> !img.text(Asked(g, img, s.pipe.m).address / 8))
  }

  lemma DataSideOf(g: Setting, img: Image, s: State, fp: Phase, dp: Phase, junk: Quad, mem: Mem, own: Option<Slot>)
    requires SoundAccess(g, img, s, fp, dp) && DataOk(g, img, s, dp, junk) && mem.bytes == s.mem.bytes
    requires SameClock(s.mem.(stage := Access), mem) && Shared(mem, own, ClaimOf(fp, s.icache))
    requires dp.Caching? ==> MemoryProofs.Tracked(mem, SharedCache.Claim(s.dcache, dp.ph).value)
    ensures DataSide(g, img, s, fp, dp, mem)
  {
    FetchSideOf(g, img, s, fp, dp, mem);
  }

  lemma NextDataWalks(g: Setting, img: Image, s: State, dp: Phase, mem: Mem, status: byte)
    requires s.Valid() && mem.cycle == s.mem.cycle && mem.readLatency == s.mem.readLatency
    ensures NextData(g, img, s, dp, DataTlbStall(status))
      == Walking(AskOf(g, img, s.pipe.m.address % TWO32), status,
          SharedWalk.NextEnd(StatusOf(dp), status, EndOf(dp), mem))
  {
  }

  lemma WalkStallIs(g: Setting, s: State, junk: Quad, w: Tlb.Walk)
    requires s.Valid() && IsAccess(s.pipe.m) && s.pipe.w.tainted == 0 && w == DataWalk(g, s, junk)
    requires w.Walk? && w.status != Tlb.HIT && w.status != Tlb.START
    ensures DataPart(g, s, junk) == DataResult(DataTlbStall(w.status), w.table, s.dcache, w.mem)
  {
  }

  /** A walk that goes on. */
  lemma DataWalksOn(g: Setting, img: Image, s: State, fp: Phase, dp: Phase, junk: Quad, own: Option<Slot>, w: Tlb.Walk)
    requires DataSide(g, img, s, fp, dp, s.mem.(stage := Access)) && !dp.Caching? && w == DataWalk(g, s, junk)
    requires var a := AskOf(g, img, s.pipe.m.address % TWO32);
      var mem := s.mem.(stage := Access);
      && SharedWalk.Stepped(a, s.dtlb, mem, StatusOf(dp), EndOf(dp), ClaimOf(fp, s.icache), w, own)
      && SharedWalk.Moved(a, s.dtlb, mem, StatusOf(dp), EndOf(dp), w, own)
    ensures DataDone(g, img, s, fp, dp, junk, own)
  {
    var mem := s.mem.(stage := Access);
    var r := DataResult(DataTlbStall(w.status), w.table, s.dcache, w.mem);
    WalkStallIs(g, s, junk, w);
    var next := NextData(g, img, s, dp, DataTlbStall(w.status));
    NextDataWalks(g, img, s, dp, mem, w.status);
    WalkStalls(g, img, s.dtlb, s.dcache, mem, s.pipe.m, s.icache, fp, StatusOf(dp), EndOf(dp), w, own);
    DataDoneIs(g, img, s, fp, dp, junk, own, next, r, CacheSessions.FlatOf(s.dcache, mem, CacheSessions.Idle));
  }

  lemma DataArrives(g: Setting, img: Image, s: State, fp: Phase, dp: Phase, junk: Quad, own: Option<Slot>, w: Tlb.Walk)
    requires ImageOk(g, img) && s.Valid() && w == DataWalk(g, s, junk) && dp.Walking? && w.Walk?
    requires DataSide(g, img, s, fp, dp, w.mem)
    requires SharedWalk.Arrived(AskOf(g, img, s.pipe.m.address % TWO32), s.dtlb, w)
    requires Shared(w.mem, own, ClaimOf(fp, s.icache)) && Pending(own).None?
    requires SharedCache.Suits(s.dcache, w.mem.bytes, Asked(g, img, s.pipe.m), false)
    ensures DataDone(g, img, s, fp, dp, junk, own)
  {
    var m := s.pipe.m;
    var mem := s.mem.(stage := Access);
    var other := ClaimOf(fp, s.icache);
    ArrivalTranslates(g, img, s.dtlb, m.address % TWO32, w);
    var r := CacheSessions.Present(s.dcache, w.mem, Asked(g, img, m), m.wasStalled == 1, false);
    assert DataPart(g, s, junk) == CacheAnswer(m.readWrite == LOAD, w.table, r);
    LookedUpReply(g, img, w.table, s.dcache, w.mem, m, other, own);
    ReplyLeaves(g, img, w.table, s.dcache, w.mem, m, CacheSessions.Idle, s.icache, fp, mem, r, own);
    ReplyMeans(g, img, w.table, s.dcache, w.mem, m, CacheSessions.Idle, other, r, own);
    NextDataIsAfterReply(g, img, s, dp, w.mem, w.table, r);
    DataDoneIs(g, img, s, fp, dp, junk, own, AfterReply(g, img, s.dcache, w.mem, m, CacheSessions.Idle, r),
               CacheAnswer(m.readWrite == LOAD, w.table, r), CacheSessions.FlatOf(s.dcache, w.mem, CacheSessions.Idle));
  }

  lemma DataAnswers(g: Setting, img: Image, s: State, fp: Phase, dp: Phase, junk: Quad, own: Option<Slot>,
      r: Cache.Access)
    requires DataSide(g, img, s, fp, dp, s.mem.(stage := Access)) && !dp.Walking?
    requires Replied(g, img, s.dtlb, s.dcache, s.mem.(stage := Access), s.pipe.m, CachePhase(dp),
        ClaimOf(fp, s.icache), r, own)
    requires DataPart(g, s, junk) == CacheAnswer(s.pipe.m.readWrite == LOAD, s.dtlb, r)
    ensures DataDone(g, img, s, fp, dp, junk, own)
  {
    var m := s.pipe.m;
    var mem := s.mem.(stage := Access);
    var ph, other := CachePhase(dp), ClaimOf(fp, s.icache);
    ReplyLeaves(g, img, s.dtlb, s.dcache, mem, m, ph, s.icache, fp, mem, r, own);
    ReplyMeans(g, img, s.dtlb, s.dcache, mem, m, ph, other, r, own);
    NextDataIsAfterReply(g, img, s, dp, mem, s.dtlb, r);
    DataDoneIs(g, img, s, fp, dp, junk, own, AfterReply(g, img, s.dcache, mem, m, ph, r),
               CacheAnswer(m.readWrite == LOAD, s.dtlb, r), CacheSessions.FlatOf(s.dcache, mem, ph));
  }

  lemma DataAsks(g: Setting, img: Image, s: State, fp: Phase, dp: Phase, junk: Quad)
    returns (own: Option<Slot>, r: Cache.Access)
    requires SoundAccess(g, img, s, fp, dp) && DataOk(g, img, s, dp, junk) && !Walks(s, dp)
    ensures Replied(g, img, s.dtlb, s.dcache, s.mem.(stage := Access), s.pipe.m, CachePhase(dp),
        ClaimOf(fp, s.icache), r, own)
    ensures DataPart(g, s, junk) == CacheAnswer(s.pipe.m.readWrite == LOAD, s.dtlb, r)
    ensures DataSide(g, img, s, fp, dp, s.mem.(stage := Access))
  {
    var m := s.pipe.m;
    var mem := s.mem.(stage := Access);
    var ph, other := CachePhase(dp), ClaimOf(fp, s.icache);
    HitTranslates(g, img, s.dtlb, mem, m.address % TWO32, junk);
    SameSlots(s.mem, mem, ClaimOf(dp, s.dcache), other);
    DataSideOf(g, img, s, fp, dp, junk, mem, ClaimOf(dp, s.dcache));
    if dp.Resting? && SharedCache.Wanted(s.dcache, Asked(g, img, m)).Some? {
      FreshApart(mem, None, other, SharedCache.Wanted(s.dcache, Asked(g, img, m)).value);
    }
    own := AskedReply(g, img, s.dtlb, s.dcache, mem, m, ph, other);
    r := CacheSessions.Present(s.dcache, mem, Asked(g, img, m), m.wasStalled == 1, true);
  }

  /** The memory stage's access, whatever it waits for. */
  lemma DataStep(g: Setting, img: Image, s: State, fp: Phase, dp: Phase, junk: Quad) returns (own: Option<Slot>)
    requires SoundAccess(g, img, s, fp, dp) && DataOk(g, img, s, dp, junk)
    ensures DataDone(g, img, s, fp, dp, junk, own)
  {
    if Walks(s, dp) {
      own := WalkingData(g, img, s, fp, dp, junk);
      var a := AskOf(g, img, s.pipe.m.address % TWO32);
      var mem := s.mem.(stage := Access);
      var w := DataWalk(g, s, junk);
      if SharedWalk.Moved(a, s.dtlb, mem, StatusOf(dp), EndOf(dp), w, own) {
        SameSlots(s.mem, mem, ClaimOf(dp, s.dcache), ClaimOf(fp, s.icache));
        DataSideOf(g, img, s, fp, dp, junk, mem, ClaimOf(dp, s.dcache));
        DataWalksOn(g, img, s, fp, dp, junk, own, w);
      } else {
        DataSideOf(g, img, s, fp, dp, junk, w.mem, own);
        DataArrives(g, img, s, fp, dp, junk, own, w);
      }
    } else {
      var r;
      own, r := DataAsks(g, img, s, fp, dp, junk);
      DataAnswers(g, img, s, fp, dp, junk, own, r);
    }
  }
}
