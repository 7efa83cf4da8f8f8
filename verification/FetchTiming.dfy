/** How long a fetch takes: every presentation brings the word nearer, whatever the memory stage does meanwhile. */
module FetchTiming {
  import opened Words
  import opened Memory
  import opened Traffic
  import opened Pipeline
  import Tlb
  import TlbProofs
  import SharedWalk
  import Cache
  import CacheSessions
  import SharedCache
  import opened Core
  import opened MachineState
  import opened MachineFetch

  function Until(end: nat, cycle: nat): nat {
    if end > cycle then end - cycle else 0
  }

  /** The presentations a fetch still needs, at most, with reads that take `latency` cycles. */
  function Left(t: Tlb.Table, fp: Phase, va: nat, cycle: nat, latency: nat): nat
    requires t.Valid()
  {
    match fp
    case Resting => if Tlb.Hits(t, va) then latency + 1 else 3 * latency + 3
    case Walking(_, status, end) =>
      if status == Tlb.WAIT_FIRST then Until(end, cycle) + 2 * latency + 3
      else if status == Tlb.HELD then 2 * latency + 2
      else Until(end, cycle) + latency + 2
    case Caching(_, ph) => if ph == CacheSessions.Idle then 1 else Until(ph.end, cycle) + 1
  }

  /** Fetched, or nearer. */
  predicate Nearer(t: Tlb.Table, fp: Phase, t': Tlb.Table, next: Phase, va: nat, cycle: nat, latency: nat,
      fetched: FetchOutcome)
    requires t.Valid() && t'.Valid()
  {
    fetched.Fetched? || Left(t', next, va, cycle + 1, latency) < Left(t, fp, va, cycle, latency)
  }

  lemma WalkNearer(g: Setting, img: Image, t: Tlb.Table, c: Cache.Table, mem: Mem, fp: Phase, va: nat, t': Tlb.Table,
      status: byte)
    requires t.Valid() && t'.Valid() && c.Valid() && !fp.Caching? && (fp.Resting? ==> !Tlb.Hits(t, va))
    requires fp.Walking? ==> SharedWalk.Waiting(fp.status)
    requires status == SharedWalk.NextStatus(mem, StatusOf(fp), EndOf(fp)) && status != Tlb.START
    ensures var fetched := FetchTlbStall(status);
      Nearer(t, fp, t', NextFetch(g, img, c, mem, fp, va, fetched), va, mem.cycle, mem.readLatency, fetched)
  {
  }

  /** A walk that goes on, or ends. */
  lemma WalkProgresses(g: Setting, img: Image, t: Tlb.Table, c: Cache.Table, mem: Mem, d: DReg, pc: nat, fp: Phase,
                       other: Option<Slot>, junk: Quad)
    requires FetchSide(g, img, t, c, mem, d, pc % TWO32, fp, other)
    requires FetchOk(g, img, t, c, mem, d, pc % TWO32, fp, junk)
    requires Walks(t, fp, pc % TWO32)
    ensures var r := FetchAccess(g.ptbr, t, c, mem, d, pc, junk);
      r.FetchAccessResult? ==>
        Nearer(t, fp, r.tlb, NextFetch(g, img, c, mem, fp, pc % TWO32, r.fetched), pc % TWO32, mem.cycle,
            mem.readLatency, r.fetched)
  {
    var va := pc % TWO32;
    ModTwice(pc);
    FetchMayWalk(g, img, t, c, mem, d, va, fp, other, junk);
    SharedWalk.WalkIsTimely(AskOf(g, img, va), t, mem, StatusOf(fp), EndOf(fp), other, junk);
    var w := FetchWalk(g, t, mem, d, va, junk);
    if w.status == Tlb.START {
      WalkEnds(g, img, t, c, mem, d, pc, fp, other, junk, w);
    } else {
      WalkNearer(g, img, t, c, mem, fp, va, w.table, w.status);
    }
  }

  lemma WalkEnds(g: Setting, img: Image, t: Tlb.Table, c: Cache.Table, mem: Mem, d: DReg, pc: nat, fp: Phase,
                 other: Option<Slot>, junk: Quad, w: Tlb.Walk)
    requires FetchSide(g, img, t, c, mem, d, pc % TWO32, fp, other)
    requires FetchOk(g, img, t, c, mem, d, pc % TWO32, fp, junk)
    requires Walks(t, fp, pc % TWO32) && w == FetchWalk(g, t, mem, d, pc % TWO32, junk) && w.Walk?
    requires w.status == Tlb.START
    requires w.status == SharedWalk.NextStatus(mem, StatusOf(fp), EndOf(fp))
    ensures var r := FetchAccess(g.ptbr, t, c, mem, d, pc, junk);
      r.FetchAccessResult? ==>
        Nearer(t, fp, r.tlb, NextFetch(g, img, c, mem, fp, pc % TWO32, r.fetched), pc % TWO32, mem.cycle,
            mem.readLatency, r.fetched)
  {
    var va := pc % TWO32;
    ModTwice(pc);
    var own := WalkingFetch(g, img, t, c, mem, d, va, fp, other, junk);
    ArrivalTranslates(g, img, t, va, w);
    ArrivalNearer(g, img, t, c, mem, d, pc, fp, junk, w);
  }

  lemma ArrivalNearer(g: Setting, img: Image, t: Tlb.Table, c: Cache.Table, mem: Mem, d: DReg, pc: nat, fp: Phase,
      junk: Quad, w: Tlb.Walk)
    requires t.Valid() && c.Valid() && c.kind == Cache.Instruction && w == FetchWalk(g, t, mem, d, pc % TWO32, junk)
    requires w.Walk? && w.status == Tlb.START && w.mem.bytes == mem.bytes && fp.Walking?
    requires SharedWalk.Waiting(fp.status)
    requires SharedWalk.Arrived(AskOf(g, img, pc % TWO32), t, w) && Some(w.output) == Translate(g, img, pc % TWO32)
    requires SharedCache.Suits(c, mem.bytes, FetchAsked(g, img, pc % TWO32), false)
    requires w.status == SharedWalk.NextStatus(mem, fp.status, fp.end)
    ensures var r := FetchAccess(g.ptbr, t, c, mem, d, pc, junk);
      r.FetchAccessResult? ==>
        Nearer(t, fp, r.tlb, NextFetch(g, img, c, mem, fp, pc % TWO32, r.fetched), pc % TWO32, mem.cycle,
            mem.readLatency, r.fetched)
  {
    LookedUpIs(c, w.mem, FetchAsked(g, img, pc % TWO32), d.willBeStalled == 1, false);
    FetchAccessIs(g, img, t, c, mem, d, pc, junk, w);
    ArrivedHits(AskOf(g, img, pc % TWO32), t, w);
  }

  lemma ArrivedHits(a: TlbProofs.Ask, t: Tlb.Table, w: Tlb.Walk)
    requires t.Valid() && SharedWalk.Arrived(a, t, w)
    ensures Tlb.Hits(w.table, a.va)
  {
  }

  lemma AskedDoneIff(c: Cache.Table, mem: Mem, ph: CacheSessions.Phase, q: CacheSessions.Request, followup: bool,
      other: Option<Slot>)
    requires c.Valid() && c.kind == Cache.Instruction && q.Load? && q.size == 4
    requires (ph != CacheSessions.Idle ==> ph.Filling?)
    requires SharedCache.MayAsk(c, mem, ph, q, followup, true, other)
    ensures var r := CacheSessions.Present(c, mem, q, followup, true);
      && (r.Done? || (r.Stall? && r.code == 1))
      && (r.Stall? ==> if ph == CacheSessions.Idle then mem.readLatency > 0 else ph.end > mem.cycle)
  {
    SharedCache.MayAskIsLegal(c, mem, ph, q, followup, true, other);
    var p := c.Split(q.address);
    if ph != CacheSessions.Idle {
      CacheSessions.EvictReadFills(c, mem, q.address, p.set_, p.set_, p.tag, true);
      CacheSessions.FillContinues(c, mem, q.address, ph.row, ph.end);
    } else if c.Resident(p.tag, p.set_).Some? {
      LookedUpIs(c, mem, q, followup, true);
    } else {
      CacheSessions.LoadMisses(c, mem, q);
    }
  }

  /** A block asked for, or waited for. */
  lemma BlockProgresses(g: Setting, img: Image, t: Tlb.Table, c: Cache.Table, mem: Mem, d: DReg, pc: nat, fp: Phase,
                        other: Option<Slot>, junk: Quad)
    requires FetchSide(g, img, t, c, mem, d, pc % TWO32, fp, other)
    requires FetchOk(g, img, t, c, mem, d, pc % TWO32, fp, junk)
    requires !Walks(t, fp, pc % TWO32)
    ensures var r := FetchAccess(g.ptbr, t, c, mem, d, pc, junk);
      r.FetchAccessResult? ==>
        Nearer(t, fp, r.tlb, NextFetch(g, img, c, mem, fp, pc % TWO32, r.fetched), pc % TWO32, mem.cycle,
            mem.readLatency, r.fetched)
  {
    var va := pc % TWO32;
    var q := FetchAsked(g, img, va);
    ModTwice(pc);
    HitTranslates(g, img, t, mem, va, junk);
    FetchAccessIs(g, img, t, c, mem, d, pc, junk, FetchWalk(g, t, mem, d, va, junk));
    FetchMayAsk(g, img, t, c, mem, d, va, fp, other, junk);
    AskedDoneIff(c, mem, CachePhase(fp), q, d.willBeStalled == 1, other);
  }

  /** Whatever fetch waits for, the word is there or is nearer. */
  lemma FetchProgresses(g: Setting, img: Image, t: Tlb.Table, c: Cache.Table, mem: Mem, d: DReg, pc: nat, fp: Phase,
                        other: Option<Slot>, junk: Quad)
    requires FetchSide(g, img, t, c, mem, d, pc % TWO32, fp, other)
    requires FetchOk(g, img, t, c, mem, d, pc % TWO32, fp, junk)
    ensures var r := FetchAccess(g.ptbr, t, c, mem, d, pc, junk);
      r.FetchAccessResult? ==>
        Nearer(t, fp, r.tlb, NextFetch(g, img, c, mem, fp, pc % TWO32, r.fetched), pc % TWO32, mem.cycle,
            mem.readLatency, r.fetched)
  {
    if Walks(t, fp, pc % TWO32) {
      WalkProgresses(g, img, t, c, mem, d, pc, fp, other, junk);
    } else {
      BlockProgresses(g, img, t, c, mem, d, pc, fp, other, junk);
    }
  }
}
