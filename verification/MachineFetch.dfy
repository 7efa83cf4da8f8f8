/** The fetch stage of the whole machine: translation, then the instruction cache, next to whatever the memory
    stage waits for. */
module MachineFetch {
  import opened Words
  import opened Memory
  import MemoryProofs
  import opened Traffic
  import opened Pipeline
  import Predictor
  import Tlb
  import TlbProofs
  import SharedWalk
  import Cache
  import CacheProofs
  import CacheSessions
  import SharedCache
  import opened Core
  import opened MachineState

  /** What fetch waits for after it presented `va`. */
  function NextFetch(g: Setting, img: Image, c: Cache.Table, mem: Mem, fp: Phase, va: nat, fetched: FetchOutcome): Phase
    requires c.Valid()
  {
    match fetched
    case FetchTlbStall(st) => Walking(AskOf(g, img, va), st, SharedWalk.NextEnd(StatusOf(fp), st, EndOf(fp), mem))
    case FetchMiss(code) =>
      if code == 2 then Resting
      else Caching(va, CacheSessions.NextPhase(c, mem, CachePhase(fp), FetchAsked(g, img, va), Cache.Stall(c, mem, 1)))
    case Fetched(_) => Resting
  }

  function FetchWalk(g: Setting, t: Tlb.Table, mem: Mem, d: DReg, va: nat, junk: Quad): Tlb.Walk
    requires t.Valid()
  {
    Tlb.GetAddress(g.ptbr, t, mem, va, if d.willBeStalled == 2 then d.tlbStatus else Tlb.START, junk)
  }

  /** The fetch is one the machine deals with as intended: its address translates, to text; a walk begins only
      with D empty and, once its second read is under way, stays on its page; a block on its way is waited for at
      the address it was asked for; a block is asked for at its base; and no request for what is asked of memory is
      already in the table. */
  ghost predicate FetchOk(g: Setting, img: Image, t: Tlb.Table, c: Cache.Table, mem: Mem, d: DReg, va: nat, fp: Phase,
      junk: Quad)
    requires t.Valid() && c.Valid()
  {
    var q := FetchAsked(g, img, va);
    match fp
    case Resting =>
      if Tlb.Hits(t, va) then
        && Translate(g, img, va).Some? && SharedCache.Suits(c, mem.bytes, q, true)
        && (SharedCache.Wanted(c, q).Some? ==>
            MemoryProofs.Fresh(mem.slots, SharedCache.Wanted(c, q).value) && BlockFixed(img, q.address))
      else Translatable(g, img, va) && !d.notStalled && MemoryProofs.Fresh(mem.slots, AskOf(g, img, va).FirstAt())
    case Walking(a, status, _) =>
      && Translatable(g, img, va) && (status == Tlb.WAIT_SECOND ==> va / 0x1000 == a.va / 0x1000)
      && (status == Tlb.HELD ==> MemoryProofs.Fresh(mem.slots, AskOf(g, img, va).SecondAt()))
      && (FetchWalk(g, t, mem, d, va, junk).Walk? && FetchWalk(g, t, mem, d, va, junk).status == Tlb.START ==>
            SharedCache.Suits(c, mem.bytes, q, false))
    case Caching(at, _) => va == at
  }

  /** Memory, translation and cache after the fetch stage. */
  ghost predicate AfterFetch(g: Setting, img: Image, before: Mem, other: Option<Slot>, next: Phase,
      r: FetchAccessResult, own: Option<Slot>) {
    && r.FetchAccessResult? && r.tlb.Valid() && r.cache.Valid() && r.cache.kind == Cache.Instruction
    && r.mem.bytes == before.bytes && SameClock(before, r.mem)
    && TlbProofs.Coherent(r.tlb, img.bytes, g.ptbr)
    && CacheSessions.SessionInv(r.cache, r.mem, CachePhase(next)) && RowsFixed(img, r.cache)
    && Shared(r.mem, other, own) && Pending(own) == ClaimOf(next, r.cache)
  }

  /** D after the fetch, as far as it says what fetch waits for. */
  function NextD(d: DReg, fetched: FetchOutcome): DReg {
    match fetched
    case FetchTlbStall(status) => d.(willBeStalled := 2, tlbStatus := status)
    case FetchMiss(code) => DReg(0, 0, 0, false, if code == 2 then 3 else 1, 0xFF)
    case Fetched(i) => d.(instruction := i, notStalled := true, willBeStalled := 0)
  }

  lemma NextDPhase(g: Setting, img: Image, t: Tlb.Table, d: DReg, pc: nat, table: seq<Predictor.Entry>,
      fetched: FetchOutcome, next: Phase)
    requires Predictor.Valid(table) && FetchPhase(g, img, t, NextD(d, fetched), next)
    ensures FetchPhase(g, img, t, FetchStage(d, pc, table, fetched).d, next)
  {
  }

  /** What the outcome means: the program's word, or a wait recorded in D. */
  ghost predicate FetchMeans(g: Setting, img: Image, d: DReg, va: nat, next: Phase, r: FetchAccessResult)
    requires r.FetchAccessResult?
  {
    && FetchPhase(g, img, r.tlb, NextD(d, r.fetched), next)
    && (r.fetched.FetchTlbStall? ==> !d.notStalled)
    && (r.fetched.Fetched? ==> r.fetched.instruction == CodeAt(g, img, va))
  }

  // ---------------------------------------------------------------- walking

  /** On one page, the walk reads the same words. */
  lemma SamePage(g: Setting, img: Image, va: nat, vb: nat)
    requires va / 0x1000 == vb / 0x1000 && Translatable(g, img, va) && vb < TWO32
    ensures var a, b := AskOf(g, img, va), AskOf(g, img, vb);
      && Translatable(g, img, vb) && a.FirstAt() == b.FirstAt() && a.SecondAt() == b.SecondAt()
      && a.first == b.first && a.second == b.second
  {
    var a := AskOf(g, img, va);
    SameAddresses(g.ptbr, va, vb, a.first);
    SamePure(img.bytes, g.ptbr, va, vb);
  }

  /** Every translation begins with the same word. */
  lemma SameFirst(g: Setting, img: Image, va: nat, vb: nat)
    requires g.ptbr < TWO32 && Translatable(g, img, va) && Translatable(g, img, vb)
    ensures var a, b := AskOf(g, img, va), AskOf(g, img, vb); a.FirstAt() == b.FirstAt() && a.first == b.first
  {
    TlbProofs.FirstAddressExact(g.ptbr, va);
    TlbProofs.FirstAddressExact(g.ptbr, vb);
  }

  lemma SameAddresses(ptbr: nat, va: nat, vb: nat, first: nat)
    requires va / 0x1000 == vb / 0x1000
    ensures Tlb.FirstAddress(ptbr, va) == Tlb.FirstAddress(ptbr, vb)
        && Tlb.SecondAddress(first, va) == Tlb.SecondAddress(first, vb)
    ensures Tlb.Admitted(va) <==> Tlb.Admitted(vb)
  {
    PageParts(va, vb);
  }

  lemma SamePure(bytes: seq<byte>, ptbr: nat, va: nat, vb: nat)
    requires va / 0x1000 == vb / 0x1000
    ensures TlbProofs.PureWalk(bytes, ptbr, va).Some? <==> TlbProofs.PureWalk(bytes, ptbr, vb).Some?
  {
    PageParts(va, vb);
  }

  lemma PageParts(va: nat, vb: nat)
    requires va / 0x1000 == vb / 0x1000
    ensures va / 0x40_0000 == vb / 0x40_0000 && va / 0x2_0000 == vb / 0x2_0000 && va / 0x4000 == vb / 0x4000
  {
    assert va / 0x40_0000 == va / 0x1000 / 0x400 && vb / 0x40_0000 == vb / 0x1000 / 0x400;
    assert va / 0x2_0000 == va / 0x1000 / 0x20 && vb / 0x2_0000 == vb / 0x1000 / 0x20;
    assert va / 0x4000 == va / 0x1000 / 4 && vb / 0x4000 == vb / 0x1000 / 4;
  }

  /** A walk that goes on. */
  lemma WalkStalls(g: Setting, img: Image, t: Tlb.Table, c: Cache.Table, mem: Mem, d: DReg, va: nat,
      other: Option<Slot>,
                   status: byte, end: nat, w: Tlb.Walk, own: Option<Slot>)
    requires t.Valid() && TlbProofs.Coherent(t, img.bytes, g.ptbr) && !d.notStalled && Translatable(g, img, va)
    requires CacheSessions.SessionInv(c, mem, CacheSessions.Idle) && c.kind == Cache.Instruction && RowsFixed(img, c)
    requires var a := AskOf(g, img, va);
      SharedWalk.Stepped(a, t, mem, status, end, other, w, own) && SharedWalk.Moved(a, t, mem, status, end, w, own)
    ensures var next := Walking(AskOf(g, img, va), w.status, SharedWalk.NextEnd(status, w.status, end, mem));
      var r := FetchAccessResult(FetchTlbStall(w.status), w.table, c, w.mem);
      AfterFetch(g, img, mem, other, next, r, own) && FetchMeans(g, img, d, va, next, r)
  {
    SameEntriesCoherent(t, w.table, img.bytes, g.ptbr);
    SharedSwap(w.mem, own, other);
  }

  // ---------------------------------------------------------------- the cache

  function Answer(t: Tlb.Table, r: Cache.Access): FetchAccessResult {
    match r
    case Done(c, m, bytes) => if |bytes| == 4 then FetchAccessResult(Fetched(U32(bytes)), t, c, m) else FetchHalted
    case Stall(c, m, code) => FetchAccessResult(FetchMiss(code), t, c, m)
    case _ => FetchHalted
  }

  function AfterReply(g: Setting, img: Image, c: Cache.Table, mem: Mem, va: nat, ph: CacheSessions.Phase,
      r: Cache.Access): Phase
    requires c.Valid()
  {
    if r.Stall? && r.code != 2 then
      Caching(va, CacheSessions.NextPhase(c, mem, ph, FetchAsked(g, img, va), Cache.Stall(c, mem, 1)))
    else Resting
  }

  ghost predicate Replied(g: Setting, img: Image, t: Tlb.Table, c: Cache.Table, mem: Mem, va: nat,
      ph: CacheSessions.Phase,
                          other: Option<Slot>, r: Cache.Access, own: Option<Slot>)
    requires c.Valid()
  {
    var q := FetchAsked(g, img, va);
    && t.Valid() && TlbProofs.Coherent(t, img.bytes, g.ptbr) && va < TWO32 && Translate(g, img, va).Some?
    && c.kind == Cache.Instruction && RowsFixed(img, c) && Agrees(img, mem.bytes)
        && CacheSessions.SessionInv(c, mem, ph)
    && (r.Done? || r.Stall?) && r.cache.Valid() && r.cache.kind == Cache.Instruction
    && CacheSessions.Answered(c, mem, ph, q, r, CacheSessions.NextPhase(c, mem, ph, q, r))
    && r.mem.bytes == mem.bytes && SameClock(mem, r.mem)
    && Shared(r.mem, other, own) && Pending(own)
        == SharedCache.Claim(r.cache, CacheSessions.NextPhase(c, mem, ph, q, r))
    && (r.Stall? && r.code != 2 ==> r.code == 1 && Tlb.Hits(t, va) && BlockFixed(img, q.address))
    && (r.cache == c || (SharedCache.RowsMove(c, r.cache, c.Split(q.address), false) && BlockFixed(img, q.address)
        && c.Split(q.address).off == 0))
    && (r.Done? ==> img.text(q.address / 8) && q.address % 4 == 0)
    && (ph != CacheSessions.Idle ==> ph.Filling? && ph.request == q)
  }

  lemma PhaseAfterReply(g: Setting, img: Image, c: Cache.Table, mem: Mem, va: nat, ph: CacheSessions.Phase,
      r: Cache.Access)
    requires c.Valid() && (r.Stall? ==> r.code == 1 || r.code == 2)
    ensures CachePhase(AfterReply(g, img, c, mem, va, ph, r))
        == CacheSessions.NextPhase(c, mem, ph, FetchAsked(g, img, va), r)
  {
  }

  /** Rows are taken only for text. */
  lemma RowsKept(img: Image, c: Cache.Table, d: Cache.Table, q: CacheSessions.Request)
    requires c.Valid() && d.Valid() && c.kind == Cache.Instruction && RowsFixed(img, c)
    requires SharedCache.RowsMove(c, d, c.Split(q.address), false) && BlockFixed(img, q.address)
    requires c.Split(q.address).off == 0
    ensures RowsFixed(img, d)
  {
    CacheProofs.SplitJoin(c, q.address);
    forall k | 0 <= k < |d.rows| && d.rows[k].valid ensures BlockFixed(img, CacheProofs.RowBase(d, k)) {
      assert SharedCache.RowMoves(c, d, c.Split(q.address), false, k);
    }
  }

  lemma ReplyLeaves(g: Setting, img: Image, t: Tlb.Table, c: Cache.Table, mem: Mem, va: nat, ph: CacheSessions.Phase,
                    other: Option<Slot>, r: Cache.Access, own: Option<Slot>)
    requires c.Valid() && Replied(g, img, t, c, mem, va, ph, other, r, own) && (r.Done? ==> |r.bytes| == 4)
    ensures AfterFetch(g, img, mem, other, AfterReply(g, img, c, mem, va, ph, r), Answer(t, r), own)
  {
    PhaseAfterReply(g, img, c, mem, va, ph, r);
    if r.cache != c {
      RowsKept(img, c, r.cache, FetchAsked(g, img, va));
    }
  }

  /** The bytes fetched are the program's. */
  lemma FetchedIsCode(g: Setting, img: Image, t: Tlb.Table, c: Cache.Table, mem: Mem, va: nat, ph: CacheSessions.Phase,
                      other: Option<Slot>, r: Cache.Access, own: Option<Slot>)
    requires c.Valid() && Replied(g, img, t, c, mem, va, ph, other, r, own) && r.Done?
    ensures |r.bytes| == 4 && U32(r.bytes) == CodeAt(g, img, va)
  {
    CacheSessions.InstructionFlatIsMemory(c, mem.bytes, CacheSessions.Hole(ph));
    var p := FetchAsked(g, img, va).address;
    assert p + 4 <= |mem.bytes| && r.bytes == mem.bytes[p..p + 4];
    CodeIs(g, img, mem.bytes, va, p);
  }

  lemma CodeIs(g: Setting, img: Image, bytes: seq<byte>, va: nat, p: nat)
    requires Agrees(img, bytes) && Translate(g, img, va) == Some(p) && p % 4 == 0 && img.text(p / 8) && p + 4 <= |bytes|
    ensures U32(bytes[p..p + 4]) == CodeAt(g, img, va)
  {
    FixedWord(img, bytes, p);
    WordSlice(bytes, img.bytes, p);
  }

  lemma WordSlice(b1: seq<byte>, b2: seq<byte>, p: nat)
    requires TlbProofs.WordAt(b1, p) == TlbProofs.WordAt(b2, p) && p % 4 == 0 && p + 4 <= |b1| == |b2|
    ensures U32(b1[p..p + 4]) == U32(b2[p..p + 4])
  {
  }

  lemma ReplyMeans(g: Setting, img: Image, t: Tlb.Table, c: Cache.Table, mem: Mem, d: DReg, va: nat,
      ph: CacheSessions.Phase,
                   other: Option<Slot>, r: Cache.Access, own: Option<Slot>)
    requires c.Valid() && Replied(g, img, t, c, mem, va, ph, other, r, own) && (r.Done? ==> |r.bytes| == 4)
    requires r.Done? ==> U32(r.bytes) == CodeAt(g, img, va)
    ensures FetchMeans(g, img, d, va, AfterReply(g, img, c, mem, va, ph, r), Answer(t, r))
  {
  }

  // ---------------------------------------------------------------- replies

  /** A row of the cache holds text. */
  lemma ResidentFixed(img: Image, c: Cache.Table, x: nat)
    requires c.Valid() && c.kind == Cache.Instruction && RowsFixed(img, c)
    requires c.Resident(c.Split(x).tag, c.Split(x).set_).Some?
    ensures img.text(x / 8)
  {
    var p := c.Split(x);
    CacheProofs.SplitJoin(c, x);
    var i := c.Resident(p.tag, p.set_).value;
    assert CacheProofs.RowBase(c, i) == c.Base(p.tag, p.set_);
    HalfOfBlock(c.Base(p.tag, p.set_), x, p.tag * c.numBlocks + p.set_);
  }

  lemma HalfOfBlock(base: nat, x: nat, k: nat)
    requires base == k * 16 && base <= x < base + 16
    ensures x / 8 == base / 8 || x / 8 == base / 8 + 1
  {
  }

  lemma BaseFixed(img: Image, x: nat)
    requires BlockFixed(img, x)
    ensures img.text(x / 8)
  {
  }

  lemma FourAligned(c: Cache.Table, x: nat)
    requires c.Valid() && c.Split(x).off % 4 == 0
    ensures x % 4 == 0
  {
    CacheProofs.SplitJoin(c, x);
    var p := c.Split(x);
    FourDivides(p.tag * c.numBlocks + p.set_, c.BlockBytes(), p.off);
  }

  lemma FourDivides(block: nat, size: nat, off: nat)
    requires (size == 8 || size == 16) && off % 4 == 0
    ensures (block * size + off) % 4 == 0
  {
    if size == 8 {
      assert block * size == 4 * (2 * block);
    } else {
      assert block * size == 4 * (4 * block);
    }
  }

  lemma LookedUpIs(c: Cache.Table, mem: Mem, q: CacheSessions.Request, followup: bool, available: bool)
    requires c.Valid() && c.kind == Cache.Instruction && q.Load? && q.size == 4
    requires CacheSessions.Shapely(c, mem.bytes, q)
    requires !available || SharedCache.Wanted(c, q).None?
    ensures var r := CacheSessions.Present(c, mem, q, followup, available);
      && (r.Done? || r.Stall?) && r.cache == c && r.mem == mem
      && (r.Stall? ==> r.code == 2) && (r.Done? ==> c.Resident(c.Split(q.address).tag, c.Split(q.address).set_).Some?)
  {
  }

  /** A request made with the stage's access free. */
  lemma AskedReply(g: Setting, img: Image, t: Tlb.Table, c: Cache.Table, mem: Mem, va: nat, ph: CacheSessions.Phase,
      followup: bool, other: Option<Slot>)
    returns (own: Option<Slot>)
    requires t.Valid() && TlbProofs.Coherent(t, img.bytes, g.ptbr) && va < TWO32 && Translate(g, img, va).Some?
    requires Tlb.Hits(t, va)
    requires c.Valid() && c.kind == Cache.Instruction && RowsFixed(img, c) && Agrees(img, mem.bytes)
    requires SharedCache.MayAsk(c, mem, ph, FetchAsked(g, img, va), followup, true, other)
    requires ph != CacheSessions.Idle ==> ph.Filling?
    requires ph != CacheSessions.Idle || SharedCache.Wanted(c, FetchAsked(g, img, va)).Some? ==>
        BlockFixed(img, FetchAsked(g, img, va).address)
    ensures Replied(g, img, t, c, mem, va, ph, other,
        CacheSessions.Present(c, mem, FetchAsked(g, img, va), followup, true), own)
  {
    var q := FetchAsked(g, img, va);
    own := SharedCache.CacheStep(c, mem, ph, q, followup, true, other);
    var r := CacheSessions.Present(c, mem, q, followup, true);
    SharedSwap(r.mem, own, other);
    SharedCache.PresentRows(c, mem, q, followup, true);
    FourAligned(c, q.address);
    if ph == CacheSessions.Idle && SharedCache.Wanted(c, q).None? {
      LookedUpIs(c, mem, q, followup, true);
      ResidentFixed(img, c, q.address);
    } else {
      BaseFixed(img, q.address);
    }
  }

  /** A lookup after the walk has used the stage's access. */
  lemma LookedUpReply(g: Setting, img: Image, t: Tlb.Table, c: Cache.Table, mem: Mem, va: nat, followup: bool,
      other: Option<Slot>, own: Option<Slot>)
    requires t.Valid() && TlbProofs.Coherent(t, img.bytes, g.ptbr) && va < TWO32 && Translate(g, img, va).Some?
    requires c.Valid() && c.kind == Cache.Instruction && RowsFixed(img, c) && Agrees(img, mem.bytes)
    requires CacheSessions.SessionInv(c, mem, CacheSessions.Idle)
    requires SharedCache.Suits(c, mem.bytes, FetchAsked(g, img, va), false)
    requires Shared(mem, other, own) && Pending(own).None?
    ensures var r := CacheSessions.Present(c, mem, FetchAsked(g, img, va), followup, false);
      Replied(g, img, t, c, mem, va, CacheSessions.Idle, other, r, own)
  {
    var q := FetchAsked(g, img, va);
    assert CacheSessions.Legal(c, mem, CacheSessions.Idle, q, followup, false);
    CacheSessions.PresentationAnswered(c, mem, CacheSessions.Idle, q, followup, false);
    LookedUpIs(c, mem, q, followup, false);
    FourAligned(c, q.address);
    if CacheSessions.Present(c, mem, q, followup, false).Done? {
      ResidentFixed(img, c, q.address);
    }
  }

  // ---------------------------------------------------------------- the fetch stage

  /** What fetch has to work with. */
  ghost predicate FetchSide(g: Setting, img: Image, t: Tlb.Table, c: Cache.Table, mem: Mem, d: DReg, va: nat,
      fp: Phase, other: Option<Slot>) {
    && t.Valid() && TlbProofs.Coherent(t, img.bytes, g.ptbr) && ImageOk(g, img) && Agrees(img, mem.bytes) && va < TWO32
    && CacheSessions.SessionInv(c, mem, CachePhase(fp)) && c.kind == Cache.Instruction && RowsFixed(img, c)
    && Shared(mem, other, ClaimOf(fp, c)) && FetchPhase(g, img, t, d, fp) && mem.stage == Fetch && Fetch !in mem.issued
  }

  ghost predicate FetchDone(g: Setting, img: Image, t: Tlb.Table, c: Cache.Table, mem: Mem, d: DReg, pc: nat, fp: Phase,
                            other: Option<Slot>, junk: Quad, own: Option<Slot>)
    requires t.Valid() && c.Valid()
  {
    var va := pc % TWO32;
    var r := FetchAccess(g.ptbr, t, c, mem, d, pc, junk);
    && r.FetchAccessResult?
    && AfterFetch(g, img, mem, other, NextFetch(g, img, c, mem, fp, va, r.fetched), r, own)
    && FetchMeans(g, img, d, va, NextFetch(g, img, c, mem, fp, va, r.fetched), r)
  }

  lemma FetchDoneIs(g: Setting, img: Image, t: Tlb.Table, c: Cache.Table, mem: Mem, d: DReg, pc: nat, fp: Phase,
                    other: Option<Slot>, junk: Quad, own: Option<Slot>, next: Phase, r: FetchAccessResult)
    requires t.Valid() && c.Valid() && r == FetchAccess(g.ptbr, t, c, mem, d, pc, junk) && r.FetchAccessResult?
    requires next == NextFetch(g, img, c, mem, fp, pc % TWO32, r.fetched)
    requires AfterFetch(g, img, mem, other, next, r, own) && FetchMeans(g, img, d, pc % TWO32, next, r)
    ensures FetchDone(g, img, t, c, mem, d, pc, fp, other, junk, own)
  {
  }

  predicate Walks(t: Tlb.Table, fp: Phase, va: nat)
    requires t.Valid()
  {
    fp.Walking? || (fp.Resting? && !Tlb.Hits(t, va))
  }

  lemma WalkingFetch(g: Setting, img: Image, t: Tlb.Table, c: Cache.Table, mem: Mem, d: DReg, va: nat, fp: Phase,
      other: Option<Slot>, junk: Quad)
    returns (own: Option<Slot>)
    requires FetchSide(g, img, t, c, mem, d, va, fp, other) && FetchOk(g, img, t, c, mem, d, va, fp, junk)
    requires Walks(t, fp, va)
    ensures Translatable(g, img, va) && !d.notStalled
    ensures SharedWalk.Stepped(AskOf(g, img, va), t, mem, StatusOf(fp), EndOf(fp), other,
        FetchWalk(g, t, mem, d, va, junk), own)
  {
    FetchMayWalk(g, img, t, c, mem, d, va, fp, other, junk);
    own := SharedWalk.WalkStep(AskOf(g, img, va), t, mem, StatusOf(fp), EndOf(fp), other, junk);
  }

  lemma FetchMayWalk(g: Setting, img: Image, t: Tlb.Table, c: Cache.Table, mem: Mem, d: DReg, va: nat, fp: Phase,
      other: Option<Slot>, junk: Quad)
    requires FetchSide(g, img, t, c, mem, d, va, fp, other) && FetchOk(g, img, t, c, mem, d, va, fp, junk)
    requires Walks(t, fp, va)
    ensures Translatable(g, img, va) && !d.notStalled
    ensures SharedWalk.MayWalk(AskOf(g, img, va), t, mem, StatusOf(fp), EndOf(fp), other)
    ensures FetchWalk(g, t, mem, d, va, junk) == Tlb.GetAddress(g.ptbr, t, mem, va, StatusOf(fp), junk)
  {
    var a := AskOf(g, img, va);
    if fp.Walking? {
      SameFirst(g, img, fp.ask.va, va);
      if fp.status == Tlb.WAIT_SECOND {
        SamePage(g, img, fp.ask.va, va);
      }
    }
    AskHolds(g, img, mem.bytes, va);
    SharedSwap(mem, other, ClaimOf(fp, c));
    assert ClaimOf(fp, c) == TlbProofs.Request(a, StatusOf(fp), EndOf(fp));
    assert SharedWalk.TableFor(a, t, StatusOf(fp));
    if TlbProofs.Issues(StatusOf(fp)) {
      FreshApart(mem, other, ClaimOf(fp, c), SharedWalk.NextAddress(a, StatusOf(fp)));
    }
  }

  lemma FetchWalksOn(g: Setting, img: Image, t: Tlb.Table, c: Cache.Table, mem: Mem, d: DReg, pc: nat, fp: Phase,
                     other: Option<Slot>, junk: Quad, own: Option<Slot>, w: Tlb.Walk)
    requires FetchSide(g, img, t, c, mem, d, pc % TWO32, fp, other) && !fp.Caching?
    requires w == FetchWalk(g, t, mem, d, pc % TWO32, junk)
    requires Translatable(g, img, pc % TWO32) && !d.notStalled
    requires var a := AskOf(g, img, pc % TWO32);
      && SharedWalk.Stepped(a, t, mem, StatusOf(fp), EndOf(fp), other, w, own)
      && SharedWalk.Moved(a, t, mem, StatusOf(fp), EndOf(fp), w, own)
    ensures FetchDone(g, img, t, c, mem, d, pc, fp, other, junk, own)
  {
    var va := pc % TWO32;
    WalkStalls(g, img, t, c, mem, d, va, other, StatusOf(fp), EndOf(fp), w, own);
    var r := FetchAccessResult(FetchTlbStall(w.status), w.table, c, w.mem);
    FetchDoneIs(g, img, t, c, mem, d, pc, fp, other, junk, own, NextFetch(g, img, c, mem, fp, va, r.fetched), r);
  }

  lemma NextFetchIsAfterReply(g: Setting, img: Image, c: Cache.Table, mem: Mem, mem': Mem, fp: Phase, va: nat,
      t: Tlb.Table, r: Cache.Access)
    requires c.Valid() && Answer(t, r).FetchAccessResult? && mem'.cycle == mem.cycle
    requires mem'.readLatency == mem.readLatency && mem'.writeLatency == mem.writeLatency
    ensures NextFetch(g, img, c, mem, fp, va, Answer(t, r).fetched)
        == AfterReply(g, img, c, mem', va, CachePhase(fp), r)
  {
  }

  /** A reply of the cache, translated by `t'` and made with memory `mem'`, put together. */
  lemma FetchAnswers(g: Setting, img: Image, t: Tlb.Table, t': Tlb.Table, c: Cache.Table, mem: Mem, mem': Mem,
      d: DReg, pc: nat, fp: Phase,
                     other: Option<Slot>, junk: Quad, own: Option<Slot>, r: Cache.Access)
    requires t.Valid() && c.Valid() && mem'.bytes == mem.bytes && SameClock(mem, mem')
    requires Replied(g, img, t', c, mem', pc % TWO32, CachePhase(fp), other, r, own)
    requires (r.Done? ==> |r.bytes| == 4) && FetchAccess(g.ptbr, t, c, mem, d, pc, junk) == Answer(t', r)
    ensures FetchDone(g, img, t, c, mem, d, pc, fp, other, junk, own)
  {
    var va := pc % TWO32;
    if r.Done? {
      FetchedIsCode(g, img, t', c, mem', va, CachePhase(fp), other, r, own);
    }
    ReplyLeaves(g, img, t', c, mem', va, CachePhase(fp), other, r, own);
    ReplyMeans(g, img, t', c, mem', d, va, CachePhase(fp), other, r, own);
    NextFetchIsAfterReply(g, img, c, mem, mem', fp, va, t', r);
    FetchDoneIs(g, img, t, c, mem, d, pc, fp, other, junk, own, AfterReply(g, img, c, mem', va, CachePhase(fp), r),
        Answer(t', r));
  }

  lemma FetchAccessIs(g: Setting, img: Image, t: Tlb.Table, c: Cache.Table, mem: Mem, d: DReg, pc: nat, junk: Quad,
      w: Tlb.Walk)
    requires t.Valid() && c.Valid() && w == FetchWalk(g, t, mem, d, pc % TWO32, junk) && w.Walk?
    requires (w.status == Tlb.HIT || w.status == Tlb.START) && w.output == FetchAsked(g, img, pc % TWO32).address
    ensures var r := CacheSessions.Present(c, w.mem, FetchAsked(g, img, pc % TWO32), d.willBeStalled == 1, w.status
        == Tlb.HIT);
      FetchAccess(g.ptbr, t, c, mem, d, pc, junk) == Answer(w.table, r) && (r.Done? ==> |r.bytes| == 4)
  {
  }

  lemma FetchArrives(g: Setting, img: Image, t: Tlb.Table, c: Cache.Table, mem: Mem, d: DReg, pc: nat, fp: Phase,
                     other: Option<Slot>, junk: Quad, own: Option<Slot>, w: Tlb.Walk)
    requires FetchSide(g, img, t, c, mem, d, pc % TWO32, fp, other) && fp.Walking?
    requires w == FetchWalk(g, t, mem, d, pc % TWO32, junk)
    requires Translatable(g, img, pc % TWO32) && SharedCache.Suits(c, mem.bytes, FetchAsked(g, img, pc % TWO32), false)
    requires var a := AskOf(g, img, pc % TWO32);
      && SharedWalk.Stepped(a, t, mem, StatusOf(fp), EndOf(fp), other, w, own)
      && SharedWalk.Arrived(a, t, w) && Pending(own).None?
    ensures FetchDone(g, img, t, c, mem, d, pc, fp, other, junk, own)
  {
    var va := pc % TWO32;
    ModTwice(pc);
    ArrivalTranslates(g, img, t, va, w);
    SharedSwap(w.mem, own, other);
    assert CacheSessions.SessionInv(c, w.mem, CacheSessions.Idle);
    LookedUpReply(g, img, w.table, c, w.mem, va, false, other, own);
    FetchAccessIs(g, img, t, c, mem, d, pc, junk, w);
    var r := CacheSessions.Present(c, w.mem, FetchAsked(g, img, va), false, false);
    FetchAnswers(g, img, t, w.table, c, mem, w.mem, d, pc, fp, other, junk, own, r);
  }

  lemma FetchMayAsk(g: Setting, img: Image, t: Tlb.Table, c: Cache.Table, mem: Mem, d: DReg, va: nat, fp: Phase,
      other: Option<Slot>, junk: Quad)
    requires FetchSide(g, img, t, c, mem, d, va, fp, other) && FetchOk(g, img, t, c, mem, d, va, fp, junk)
    requires !Walks(t, fp, va)
    ensures SharedCache.MayAsk(c, mem, CachePhase(fp), FetchAsked(g, img, va), d.willBeStalled == 1, true, other)
  {
    SharedSwap(mem, other, ClaimOf(fp, c));
    if fp.Resting? && SharedCache.Wanted(c, FetchAsked(g, img, va)).Some? {
      FreshApart(mem, other, None, SharedCache.Wanted(c, FetchAsked(g, img, va)).value);
    }
  }

  lemma FetchAsksReply(g: Setting, img: Image, t: Tlb.Table, c: Cache.Table, mem: Mem, d: DReg, va: nat, fp: Phase,
      other: Option<Slot>, junk: Quad)
    returns (own: Option<Slot>)
    requires FetchSide(g, img, t, c, mem, d, va, fp, other) && FetchOk(g, img, t, c, mem, d, va, fp, junk)
    requires !Walks(t, fp, va)
    ensures Replied(g, img, t, c, mem, va, CachePhase(fp), other,
                    CacheSessions.Present(c, mem, FetchAsked(g, img, va), d.willBeStalled == 1, true), own)
  {
    FetchMayAsk(g, img, t, c, mem, d, va, fp, other, junk);
    own := AskedReply(g, img, t, c, mem, va, CachePhase(fp), d.willBeStalled == 1, other);
  }

  lemma FetchAsks(g: Setting, img: Image, t: Tlb.Table, c: Cache.Table, mem: Mem, d: DReg, pc: nat, fp: Phase,
      other: Option<Slot>, junk: Quad)
    returns (own: Option<Slot>)
    requires FetchSide(g, img, t, c, mem, d, pc % TWO32, fp, other)
    requires FetchOk(g, img, t, c, mem, d, pc % TWO32, fp, junk)
    requires !Walks(t, fp, pc % TWO32)
    ensures FetchDone(g, img, t, c, mem, d, pc, fp, other, junk, own)
  {
    var va := pc % TWO32;
    ModTwice(pc);
    HitTranslates(g, img, t, mem, va, junk);
    SharedSwap(mem, other, ClaimOf(fp, c));
    FetchAccessIs(g, img, t, c, mem, d, pc, junk, FetchWalk(g, t, mem, d, va, junk));
    own := FetchAsksReply(g, img, t, c, mem, d, va, fp, other, junk);
    var r := CacheSessions.Present(c, mem, FetchAsked(g, img, va), d.willBeStalled == 1, true);
    FetchAnswers(g, img, t, t, c, mem, mem, d, pc, fp, other, junk, own, r);
  }

  /** The fetch stage's access, whatever it waits for. */
  lemma FetchStep(g: Setting, img: Image, t: Tlb.Table, c: Cache.Table, mem: Mem, d: DReg, pc: nat, fp: Phase,
      other: Option<Slot>, junk: Quad)
    returns (own: Option<Slot>)
    requires FetchSide(g, img, t, c, mem, d, pc % TWO32, fp, other)
    requires FetchOk(g, img, t, c, mem, d, pc % TWO32, fp, junk)
    ensures FetchDone(g, img, t, c, mem, d, pc, fp, other, junk, own)
  {
    var va := pc % TWO32;
    if Walks(t, fp, va) {
      own := WalkingFetch(g, img, t, c, mem, d, va, fp, other, junk);
      var w := FetchWalk(g, t, mem, d, va, junk);
      if SharedWalk.Moved(AskOf(g, img, va), t, mem, StatusOf(fp), EndOf(fp), w, own) {
        FetchWalksOn(g, img, t, c, mem, d, pc, fp, other, junk, own, w);
      } else {
        FetchArrives(g, img, t, c, mem, d, pc, fp, other, junk, own, w);
      }
    } else {
      own := FetchAsks(g, img, t, c, mem, d, pc, fp, other, junk);
    }
  }
}
