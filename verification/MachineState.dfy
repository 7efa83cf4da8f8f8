/** The whole machine's invariant: what each stage is waiting for, and what memory, caches and translation
    buffers hold meanwhile. */
module MachineState {
  import opened Words
  import opened Memory
  import MemoryProofs
  import opened Traffic
  import opened Pipeline
  import PipelineProofs
  import Tlb
  import TlbProofs
  import SharedWalk
  import Cache
  import CacheProofs
  import CacheRefinement
  import CacheSessions
  import SharedCache
  import opened Core

  // ---------------------------------------------------------------- the program in memory

  /** What was loaded, and which eight-byte blocks of it hold the program and its page tables: those are
      never stored to. */
  datatype Image = Image(bytes: seq<byte>, text: nat -> bool)

  /** Memory still holds the program and its page tables. */
  ghost predicate Agrees(img: Image, bytes: seq<byte>) {
    |bytes| == |img.bytes| && forall a :: 0 <= a < |bytes| && img.text(a / 8) ==> bytes[a] == img.bytes[a]
  }

  /** The physical address of a program address, by a pure walk of the page tables. */
  function Translate(g: Setting, img: Image, a: nat): Option<nat> {
    TlbProofs.PureWalk(img.bytes, g.ptbr, a % TWO32)
  }

  function LoadFrom(g: Setting, img: Image, flat: seq<byte>, a: nat): Word {
    match Translate(g, img, a)
    case Some(p) => Overlay(ZERO, if p + 8 <= |flat| then flat[p..p + 8] else if p <= |flat| then flat[p..] else [])
    case None => ZERO
  }

  function StoreTo(g: Setting, img: Image, flat: seq<byte>, a: nat, n: nat, v: Word): seq<byte> {
    match Translate(g, img, a)
    case Some(p) => if n <= 8 && p + n <= |flat| then Splice(flat, p, v[..n]) else flat
    case None => flat
  }

  function CodeAt(g: Setting, img: Image, pc: nat): nat {
    match Translate(g, img, pc)
    case Some(p) => if p + 4 <= |img.bytes| then U32(img.bytes[p..p + 4]) else 0
    case None => 0
  }

  /** The program as it was loaded; data as the flat memory seen through the data cache. */
  function WorldOf(g: Setting, img: Image): PipelineProofs.World<seq<byte>> {
    PipelineProofs.World(
      g.exec,
      pc => CodeAt(g, img, pc),
      (flat, a) => LoadFrom(g, img, flat, a),
      (flat, a, n, v) => StoreTo(g, img, flat, a, n, v))
  }

  /** The walk's two page-table words are part of the text. */
  predicate WordsFixed(img: Image, a: TlbProofs.Ask) {
    img.text(a.FirstAt() / 8) && img.text(a.SecondAt() / 8)
  }

  /** An address the walk can translate. */
  predicate Translatable(g: Setting, img: Image, va: nat) {
    va < TWO32 && Tlb.Admitted(va) && TlbProofs.PureWalk(img.bytes, g.ptbr, va).Some?
  }

  function AskOf(g: Setting, img: Image, va: nat): TlbProofs.Ask {
    TlbProofs.AskFor(img.bytes, g.ptbr, va)
  }

  ghost predicate ImageOk(g: Setting, img: Image) {
    && g.ptbr < TWO32 && |img.bytes| <= TWO32 && TlbProofs.SuperpagesAgree(img.bytes, g.ptbr)
    && forall va :: Translatable(g, img, va) ==> WordsFixed(img, AskOf(g, img, va))
  }

  lemma SameBlock(x: nat, k: nat)
    requires x % 4 == 0 && x <= k < x + 4
    ensures k / 8 == x / 8
  {
  }

  lemma FixedWord(img: Image, bytes: seq<byte>, x: nat)
    requires Agrees(img, bytes) && x % 4 == 0 && img.text(x / 8)
    ensures TlbProofs.WordAt(bytes, x) == TlbProofs.WordAt(img.bytes, x)
  {
    if x + 4 <= |bytes| {
      forall k | x <= k < x + 4 ensures bytes[k] == img.bytes[k] {
        SameBlock(x, k);
      }
      assert bytes[x..x + 4] == img.bytes[x..x + 4];
    }
  }

  /** Memory holds what the walk for the address will meet. */
  lemma AskHolds(g: Setting, img: Image, bytes: seq<byte>, va: nat)
    requires ImageOk(g, img) && Agrees(img, bytes) && Translatable(g, img, va)
    ensures var a := AskOf(g, img, va);
      TlbProofs.Holds(a, bytes) && TlbProofs.Mapped(a) && Some(Tlb.Physical(Tlb.Frame(a.second), va))
          == TlbProofs.PureWalk(img.bytes, g.ptbr, va)
  {
    TlbProofs.AskIsPureWalk(img.bytes, g.ptbr, va);
    var a := AskOf(g, img, va);
    assert WordsFixed(img, a);
    FixedWord(img, bytes, a.FirstAt());
    FixedWord(img, bytes, a.SecondAt());
  }

  // ---------------------------------------------------------------- what a stage waits for

  /** Nothing; a page walk with its status and the end of its request; or a block for an address. */
  datatype Phase =
    | Resting
    | Walking(ask: TlbProofs.Ask, status: byte, end: nat)
    | Caching(va: nat, ph: CacheSessions.Phase)

  function CachePhase(p: Phase): CacheSessions.Phase {
    if p.Caching? then p.ph else CacheSessions.Idle
  }

  /** The stage's request in the pending table. */
  function ClaimOf(p: Phase, c: Cache.Table): Option<Slot>
    requires c.Valid()
  {
    match p
    case Resting => None
    case Walking(a, status, end) => TlbProofs.Request(a, status, end)
    case Caching(_, ph) => SharedCache.Claim(c, ph)
  }

  /** The status and the end of the request a walk goes on with. */
  function StatusOf(p: Phase): byte {
    if p.Walking? then p.status else Tlb.START
  }

  function EndOf(p: Phase): nat {
    if p.Walking? then p.end else 0
  }

  predicate IsAccess(m: MReg) {
    m.readWrite == LOAD || m.readWrite == STORE
  }

  /** The access in progress: in M, or in the first of a replay's two cycles held in W. */
  function Accessing(p: Pipe): MReg {
    if p.w.stall != 0 then p.w.memory else p.m
  }

  function PhysicalOf(g: Setting, img: Image, a: nat): nat {
    match Translate(g, img, a) case Some(p) => p case None => 0
  }

  function Asked(g: Setting, img: Image, m: MReg): CacheSessions.Request {
    var p := PhysicalOf(g, img, m.address);
    if m.readWrite == LOAD then CacheSessions.Load(p, m.size) else CacheSessions.Store(p, m.value, m.size)
  }

  function FetchAsked(g: Setting, img: Image, va: nat): CacheSessions.Request {
    CacheSessions.Load(PhysicalOf(g, img, va), 4)
  }

  /** The 16-byte block at the address is text. */
  predicate BlockFixed(img: Image, base: nat) {
    img.text(base / 8) && img.text(base / 8 + 1)
  }

  ghost predicate WalkIn(g: Setting, img: Image, t: Tlb.Table, a: TlbProofs.Ask, status: byte) {
    && Translatable(g, img, a.va) && a == AskOf(g, img, a.va)
    && SharedWalk.Waiting(status) && SharedWalk.TableFor(a, t, status)
  }

  ghost predicate FetchPhase(g: Setting, img: Image, t: Tlb.Table, d: DReg, p: Phase) {
    match p
    case Resting => d.willBeStalled != 1 && d.willBeStalled != 2
    case Walking(a, status, _) =>
      d.willBeStalled == 2 && d.tlbStatus == status && !d.notStalled && WalkIn(g, img, t, a, status)
    case Caching(va, ph) =>
      && d.willBeStalled == 1 && va < TWO32 && t.Valid() && Tlb.Hits(t, va) && Translate(g, img, va).Some?
      && ph.Filling? && ph.request == FetchAsked(g, img, va) && BlockFixed(img, ph.request.address)
  }

  ghost predicate DataPhase(g: Setting, img: Image, t: Tlb.Table, m: MReg, p: Phase) {
    match p
    case Resting => IsAccess(m) ==> m.wasStalled != 1 && DataStatus(m) == Tlb.START
    case Walking(a, status, _) =>
      && IsAccess(m) && m.wasStalled == 1 && m.stallStatus == status && a.va == m.address % TWO32
      && WalkIn(g, img, t, a, status)
    case Caching(va, ph) =>
      && IsAccess(m) && m.wasStalled == 1 && m.stallStatus == Tlb.START && va == m.address % TWO32
      && t.Valid() && Tlb.Hits(t, va) && Translate(g, img, va).Some?
      && ph != CacheSessions.Idle && ph.request == Asked(g, img, m)
      && (m.readWrite == STORE ==> !img.text(ph.request.address / 8))
  }

  lemma ModTwice(a: nat)
    ensures a % TWO32 % TWO32 == a % TWO32
  {
  }

  // ---------------------------------------------------------------- rows and the text

  /** Every instruction row holds text. */
  ghost predicate RowsFixed(img: Image, c: Cache.Table)
    requires c.Valid()
  {
    forall i :: 0 <= i < |c.rows| && c.rows[i].valid ==> BlockFixed(img, CacheProofs.RowBase(c, i))
  }

  /** No dirty row holds text. */
  ghost predicate DirtyOutside(img: Image, c: Cache.Table)
    requires c.Valid()
  {
    forall i :: 0 <= i < |c.rows| && c.rows[i].dirty ==> !img.text(CacheProofs.RowBase(c, i) / 8)
  }

  // ---------------------------------------------------------------- the invariant

  ghost predicate Sound(g: Setting, img: Image, s: State, fp: Phase, dp: Phase) {
    && s.Valid() && s.mem.issued == {} && ImageOk(g, img) && Agrees(img, s.mem.bytes)
    && TlbProofs.Coherent(s.itlb, img.bytes, g.ptbr) && TlbProofs.Coherent(s.dtlb, img.bytes, g.ptbr)
    && CacheSessions.SessionInv(s.icache, s.mem, CachePhase(fp)) && RowsFixed(img, s.icache)
    && CacheSessions.SessionInv(s.dcache, s.mem, CachePhase(dp)) && DirtyOutside(img, s.dcache)
    && Shared(s.mem, ClaimOf(dp, s.dcache), ClaimOf(fp, s.icache))
    && FetchPhase(g, img, s.itlb, s.pipe.d, fp) && DataPhase(g, img, s.dtlb, Accessing(s.pipe), dp)
    && PipelineProofs.Shape(s.pipe)
  }

  lemma SessionMoves(c: Cache.Table, m: Mem, r: Mem, ph: CacheSessions.Phase)
    requires CacheSessions.SessionInv(c, m, ph) && r.bytes == m.bytes && r.Valid()
    requires SharedCache.Claim(c, ph).Some? ==> MemoryProofs.Tracked(r, SharedCache.Claim(c, ph).value)
    ensures CacheSessions.SessionInv(c, r, ph)
  {
  }

  /** A stage waits only for requests that are not yet reported complete. */
  lemma ClaimIsLive(g: Setting, img: Image, t: Tlb.Table, m: MReg, dp: Phase, c: Cache.Table)
    requires c.Valid() && DataPhase(g, img, t, m, dp)
    ensures Pending(ClaimOf(dp, c)) == ClaimOf(dp, c)
  {
  }

  /** Data as the program sees it. */
  function FlatIn(s: State, dp: Phase): seq<byte>
    requires s.Valid()
  {
    CacheSessions.FlatOf(s.dcache, s.mem, CachePhase(dp))
  }

  // ---------------------------------------------------------------- translation

  lemma HitTranslates(g: Setting, img: Image, t: Tlb.Table, mem: Mem, va: nat, junk: Quad)
    requires t.Valid() && TlbProofs.Coherent(t, img.bytes, g.ptbr) && va < TWO32
    requires Tlb.Hits(t, va) && TlbProofs.PureWalk(img.bytes, g.ptbr, va).Some?
    ensures Tlb.GetAddress(g.ptbr, t, mem, va, Tlb.START, junk)
      == Tlb.Walk(t, mem, Tlb.HIT, TlbProofs.PureWalk(img.bytes, g.ptbr, va).value)
  {
  }

  /** A finished walk leaves the table coherent, hitting for the address, with the pure walk's answer. */
  lemma ArrivalTranslates(g: Setting, img: Image, t: Tlb.Table, va: nat, r: Tlb.Walk)
    requires ImageOk(g, img) && Translatable(g, img, va) && t.Valid() && TlbProofs.Coherent(t, img.bytes, g.ptbr)
    requires SharedWalk.Arrived(AskOf(g, img, va), t, r)
    ensures TlbProofs.Coherent(r.table, img.bytes, g.ptbr)
        && Some(r.output) == TlbProofs.PureWalk(img.bytes, g.ptbr, va)
  {
    TlbProofs.AskIsPureWalk(img.bytes, g.ptbr, va);
    TlbProofs.FilledEntryCoherent(t, r.table, img.bytes, g.ptbr, va);
  }

  lemma SameEntriesCoherent(t: Tlb.Table, t': Tlb.Table, bytes: seq<byte>, ptbr: nat)
    requires t.Valid() && t'.Valid() && t'.entries == t.entries && TlbProofs.Coherent(t, bytes, ptbr)
    ensures TlbProofs.Coherent(t', bytes, ptbr)
  {
    forall va | 0 <= va < TWO32 && Tlb.Hits(t', va) && TlbProofs.PureWalk(bytes, ptbr, va).Some?
      ensures Some(Tlb.Physical(t'.entries[Tlb.TableIndex(va)].physicalPage, va)) == TlbProofs.PureWalk(bytes, ptbr, va)
    {
      assert Tlb.Hits(t, va);
    }
  }

  // ---------------------------------------------------------------- the other stage's cache

  /** A write-back of a block outside the text leaves the program in place. */
  lemma WriteBackAgrees(img: Image, c: Cache.Table, m: Mem, r: Mem)
    requires c.Valid() && c.kind == Cache.Data && Agrees(img, m.bytes) && DirtyOutside(img, c)
    requires SharedCache.MemoryMoves(c, m, r)
    ensures Agrees(img, r.bytes)
  {
    if r.bytes != m.bytes {
      var i :| 0 <= i < |c.rows| && c.rows[i].dirty && |c.rows[i].data| == 8
          && CacheProofs.RowBase(c, i) + 8 <= |m.bytes|
               && r.bytes == Splice(m.bytes, CacheProofs.RowBase(c, i), c.rows[i].data);
      RowBaseAligned(c, i);
      SpliceAgrees(img, m.bytes, CacheProofs.RowBase(c, i), c.rows[i].data);
    }
  }

  lemma RowBaseAligned(c: Cache.Table, i: nat)
    requires c.Valid() && i < |c.rows|
    ensures CacheProofs.RowBase(c, i) % c.BlockBytes() == 0
  {
    DivModUnique(CacheProofs.RowBase(c, i), c.BlockBytes(), c.rows[i].tag * c.numBlocks + CacheProofs.SetOf(c, i), 0);
  }

  lemma SpliceAgrees(img: Image, bytes: seq<byte>, x: nat, data: seq<byte>)
    requires Agrees(img, bytes) && x % 8 == 0 && |data| == 8 && x + 8 <= |bytes| && !img.text(x / 8)
    ensures Agrees(img, Splice(bytes, x, data))
  {
    var after := Splice(bytes, x, data);
    forall a | 0 <= a < |after| && img.text(a / 8) ensures after[a] == img.bytes[a] {
      if x <= a < x + 8 {
        BlockNumber(x, a);
      }
    }
  }

  lemma BlockNumber(x: nat, a: nat)
    requires x % 8 == 0 && x <= a < x + 8
    ensures a / 8 == x / 8
  {
  }

  /** The instruction cache session goes on when memory changes outside the text. */
  lemma InstructionsKept(img: Image, c: Cache.Table, m: Mem, r: Mem, ph: CacheSessions.Phase)
    requires CacheSessions.SessionInv(c, m, ph) && c.kind == Cache.Instruction && RowsFixed(img, c) && !ph.WritingBack?
    requires Agrees(img, m.bytes) && Agrees(img, r.bytes) && r.Valid()
    requires ph.Filling? ==> SharedCache.Claim(c, ph).Some? && MemoryTracks(r, SharedCache.Claim(c, ph).value)
    ensures CacheSessions.SessionInv(c, r, ph)
  {
    RowsKept(img, c, m.bytes, r.bytes, CacheSessions.Hole(ph));
  }

  lemma RowsKept(img: Image, c: Cache.Table, b1: seq<byte>, b2: seq<byte>, hole: int)
    requires CacheRefinement.Inv(c, b1, hole) && c.kind == Cache.Instruction && RowsFixed(img, c) && Agrees(img, b1)
    requires Agrees(img, b2)
    ensures CacheRefinement.Inv(c, b2, hole)
  {
    forall i | 0 <= i < |c.rows| ensures CacheRefinement.RowOk(c, b2, hole, i) {
      assert CacheRefinement.RowOk(c, b1, hole, i);
      if c.rows[i].valid {
        RowBaseAligned(c, i);
        FixedBlock(img, b1, b2, CacheProofs.RowBase(c, i));
      }
    }
  }

  ghost predicate MemoryTracks(m: Mem, s: Slot) {
    MemoryProofs.Tracked(m, s)
  }

  lemma HalfOf(base: nat, k: nat)
    requires base % 16 == 0 && base <= k < base + 16
    ensures k / 8 == base / 8 || k / 8 == base / 8 + 1
  {
  }

  lemma FixedBlock(img: Image, b1: seq<byte>, b2: seq<byte>, base: nat)
    requires Agrees(img, b1) && Agrees(img, b2) && BlockFixed(img, base) && base % 16 == 0 && base + 16 <= |b1|
    ensures b1[base..base + 16] == b2[base..base + 16]
  {
    forall k | base <= k < base + 16 ensures b1[k] == b2[k] {
      HalfOf(base, k);
    }
  }
}
