/** The access of an instruction that a store waiting for the cache has let past: it reaches the data cache while the
    store's block, or the row it replaces, is on its way. */
module MachineBehind {
  import opened Words
  import opened Memory
  import opened Traffic
  import opened Pipeline
  import Tlb
  import TlbProofs
  import Cache
  import CacheSessions
  import CacheBeside
  import SharedCache
  import opened Core
  import opened MachineState
  import MachineData

  predicate Behind(s: State) {
    s.pipe.w.stall != 0 && s.pipe.w.tainted == 0 && IsAccess(s.pipe.m)
  }

  /** The access is done at once: it hits its translation, and the cache answers it without memory. */
  ghost predicate BehindOk(g: Setting, img: Image, s: State, dp: Phase)
    requires s.Valid()
  {
    var m := s.pipe.m;
    var q := Asked(g, img, m);
    && m.wasStalled == 0 && Tlb.Hits(s.dtlb, m.address % TWO32) && Translate(g, img, m.address).Some?
    && CacheBeside.AtOnce(s.dcache, s.mem.bytes, CachePhase(dp), q)
    && (m.readWrite == STORE ==> !img.text(q.address / 8))
  }

  /** It is done: a store is in the flat memory, a load has brought something. */
  ghost predicate BehindTells(g: Setting, img: Image, m: MReg, flat: seq<byte>, outcome: DataOutcome,
      flat': seq<byte>) {
    && flat' == MachineData.Stored(g, img, m, flat)
    && (m.readWrite == LOAD ==> outcome.Loaded?) && (m.readWrite == STORE ==> outcome == Stored)
  }

  ghost predicate BehindMeans(g: Setting, img: Image, m: MReg, flat: seq<byte>, dp: Phase, r: DataResult)
    requires r.DataResult? && r.cache.Valid()
  {
    BehindTells(g, img, m, flat, r.outcome, CacheSessions.FlatOf(r.cache, r.mem, CachePhase(dp)))
  }

  lemma BehindAnswers(g: Setting, img: Image, s: State, dp: Phase, mem: Mem, junk: Quad, r: Cache.Access)
    requires s.Valid() && Behind(s) && BehindOk(g, img, s, dp) && mem == s.mem.(stage := Access)
    requires TlbProofs.Coherent(s.dtlb, img.bytes, g.ptbr) && CacheSessions.SessionInv(s.dcache, mem, CachePhase(dp))
    requires r == CacheSessions.Present(s.dcache, mem, Asked(g, img, s.pipe.m), false, true)
    ensures CacheBeside.AnsweredBeside(s.dcache, mem, CachePhase(dp), Asked(g, img, s.pipe.m), r)
    ensures DataPart(g, s, junk) == CacheAnswer(s.pipe.m.readWrite == LOAD, s.dtlb, r)
  {
    CacheBeside.Beside(s.dcache, mem, CachePhase(dp), Asked(g, img, s.pipe.m), false, true);
    HitTranslates(g, img, s.dtlb, mem, s.pipe.m.address % TWO32, junk);
  }

  lemma BehindStep(g: Setting, img: Image, s: State, fp: Phase, dp: Phase, junk: Quad) returns (own: Option<Slot>)
    requires Sound(g, img, s, fp, dp) && Behind(s) && BehindOk(g, img, s, dp)
    ensures var r := DataPart(g, s, junk);
      && r.DataResult? && r.cache.Valid() && r.tlb == s.dtlb
      && MachineData.AfterData(g, img, s.mem.(stage := Access), s.icache, fp, dp, r, own)
      && BehindMeans(g, img, s.pipe.m, FlatIn(s, dp), dp, r)
  {
    var mem := s.mem.(stage := Access);
    var q := Asked(g, img, s.pipe.m);
    own := ClaimOf(dp, s.dcache);
    SameSlots(s.mem, mem, own, ClaimOf(fp, s.icache));
    SessionMoves(s.dcache, s.mem, mem, CachePhase(dp));
    SessionMoves(s.icache, s.mem, mem, CachePhase(fp));
    ClaimIsLive(g, img, s.dtlb, Accessing(s.pipe), dp, s.dcache);
    var r := CacheSessions.Present(s.dcache, mem, q, false, true);
    BehindAnswers(g, img, s, dp, mem, junk, r);
    SharedCache.PresentRows(s.dcache, mem, q, false, true);
    MachineData.DirtyKept(img, s.dcache, r.cache, q);
    BehindLeaves(g, img, s, fp, dp, mem, r, own);
    BehindStores(g, img, s.pipe.m, s.dcache, mem, dp, s.dtlb, r);
  }

  lemma BehindStores(g: Setting, img: Image, m: MReg, c: Cache.Table, mem: Mem, dp: Phase, t: Tlb.Table,
      r: Cache.Access)
    requires c.Valid() && IsAccess(m) && Translate(g, img, m.address).Some?
    requires CacheBeside.AnsweredBeside(c, mem, CachePhase(dp), Asked(g, img, m), r)
    ensures BehindMeans(g, img, m, CacheSessions.FlatOf(c, mem, CachePhase(dp)), dp,
        CacheAnswer(m.readWrite == LOAD, t, r))
  {
  }

  lemma BehindLeaves(g: Setting, img: Image, s: State, fp: Phase, dp: Phase, mem: Mem, r: Cache.Access,
      own: Option<Slot>)
    requires s.Valid() && mem == s.mem.(stage := Access) && Agrees(img, mem.bytes)
    requires TlbProofs.Coherent(s.dtlb, img.bytes, g.ptbr)
    requires CacheBeside.AnsweredBeside(s.dcache, mem, CachePhase(dp), Asked(g, img, s.pipe.m), r)
    requires r.cache.kind == Cache.Data && DirtyOutside(img, r.cache)
    requires CacheSessions.SessionInv(s.icache, mem, CachePhase(fp))
    requires Shared(mem, own, ClaimOf(fp, s.icache)) && own == ClaimOf(dp, s.dcache) && Pending(own) == own
    ensures MachineData.AfterData(g, img, mem, s.icache, fp, dp, CacheAnswer(s.pipe.m.readWrite == LOAD, s.dtlb, r),
        own)
  {
  }
}
