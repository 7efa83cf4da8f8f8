/** Fetch redirected while an instruction block or a page-table word is on its way. The fetch stage presents whatever
    address it is at as the follow-up of the fill or the walk in flight; here is what that does when the address has
    changed. */
module FetchDepartures {
  import opened Words
  import opened Memory
  import opened Cache
  import opened CacheProofs
  import opened CacheRefinement
  import opened CacheSessions
  import Traffic
  import Tlb
  import TlbProofs
  import SharedWalk

  /** An instruction fetch elsewhere while a block is on its way. */
  ghost predicate Redirected(c: Table, m: Mem, ph: Phase, q: Request) {
    && c.kind == Instruction && SessionInv(c, m, ph) && ph.Filling?
    && q.Load? && q.size == 4 && Shapely(c, m.bytes, q) && q.address != ph.request.address
  }

  /** The row given up for the fill still holds what its tag says, or claims nothing. */
  ghost predicate GivenUpHarmless(c: Table, bytes: seq<byte>, i: nat)
    requires c.Valid() && i < |c.rows|
  {
    c.rows[i].valid ==> InSync(c, bytes, i)
  }

  /** The bytes a poll for the address puts into row j. */
  function Stolen(c: Table, m: Mem, x: nat, j: nat): seq<byte>
    requires c.Valid() && j < |c.rows|
  {
    Overlay(c.rows[j].data, Status(m, x).fill)
  }

  /** When such a fetch keeps the session. A hit: when the row given up is harmless. A miss: when memory knows
      no completed request for the address, and the fetch waits; or when the bytes it finds in its place are
      the block, and the row given up is that very row, or harmless. */
  ghost predicate RedirectKept(c: Table, m: Mem, ph: Phase, q: Request)
    requires Redirected(c, m, ph, q)
  {
    var p := c.Split(q.address);
    var i, j := ph.row, p.set_;
    if c.Resident(p.tag, p.set_).Some? then GivenUpHarmless(c, m.bytes, i)
    else
      Status(m, q.address).done ==>
        && Stolen(c, m, q.address, j) == m.bytes[c.Base(p.tag, j)..c.Base(p.tag, j) + 16]
        && (i == j || GivenUpHarmless(c, m.bytes, i))
  }

  /** With every row but j of the invariant's, and row j the block of its tag, no hole is left. */
  lemma HolePlugged(c: Table, bytes: seq<byte>, i: nat)
    requires c.kind == Instruction && Inv(c, bytes, i) && i < |c.rows|
    ensures Inv(c, bytes, NO_HOLE) <==> GivenUpHarmless(c, bytes, i)
  {
    if GivenUpHarmless(c, bytes, i) {
      forall k | 0 <= k < |c.rows| ensures RowOk(c, bytes, NO_HOLE, k) {
        assert RowOk(c, bytes, i, k);
      }
    } else {
      assert RowOk(c, bytes, i, i) && !RowOk(c, bytes, NO_HOLE, i);
    }
  }

  lemma RedirectHitAnsweredIff(c: Table, m: Mem, ph: Phase, q: Request)
    requires Redirected(c, m, ph, q) && c.Resident(c.Split(q.address).tag, c.Split(q.address).set_).Some?
    ensures Answered(c, m, ph, q, Present(c, m, q, true, true), Idle) <==> GivenUpHarmless(c, m.bytes, ph.row)
  {
    var p := c.Split(q.address);
    HolePlugged(c, m.bytes, ph.row);
    if GivenUpHarmless(c, m.bytes, ph.row) {
      HitReadsFlat(c, m.bytes, c.Resident(p.tag, p.set_).value, q.address, q.size);
      InstructionFlatIsMemory(c, m.bytes, NO_HOLE);
      InstructionFlatIsMemory(c, m.bytes, ph.row);
    }
  }

  lemma RedirectMissIs(c: Table, m: Mem, ph: Phase, q: Request)
    requires Redirected(c, m, ph, q) && c.Resident(c.Split(q.address).tag, c.Split(q.address).set_).None?
    ensures var p := c.Split(q.address);
      var s := Status(m, q.address);
      var data := Stolen(c, m, q.address, p.set_);
      Present(c, m, q, true, true) ==
        if s.done then Done(c.Set(p.set_, Row(p.tag, data, false, true)), s.mem, data[p.off..p.off + 4])
        else Stall(c, m, 1)
  {
    var p := c.Split(q.address);
    if !Status(m, q.address).done {
      ZeroOverlay(c.rows[p.set_].data);
      assert c.rows[p.set_ := c.rows[p.set_]] == c.rows;
    }
  }

  /** Putting the block into row j, another row waiting for its own. */
  lemma StolenRowInv(c: Table, bytes: seq<byte>, i: nat, j: nat, row: Row)
    requires c.kind == Instruction && Inv(c, bytes, i) && i < |c.rows| && j < |c.rows|
    requires |row.data| == 16 && row.valid && !row.dirty && c.Base(row.tag, j) + 16 <= |bytes|
    ensures Inv(c.Set(j, row), bytes, NO_HOLE)
      <==> row.data == bytes[c.Base(row.tag, j)..c.Base(row.tag, j) + 16] && (i == j || GivenUpHarmless(c, bytes, i))
  {
    if Inv(c.Set(j, row), bytes, NO_HOLE) {
      StolenRowTells(c, bytes, i, j, row);
    }
    if row.data == bytes[c.Base(row.tag, j)..c.Base(row.tag, j) + 16] && (i == j || GivenUpHarmless(c, bytes, i)) {
      StolenRowKeeps(c, bytes, i, j, row);
    }
  }

  lemma StolenRowTells(c: Table, bytes: seq<byte>, i: nat, j: nat, row: Row)
    requires c.kind == Instruction && c.Valid() && i < |c.rows| && j < |c.rows|
    requires |row.data| == 16 && row.valid && !row.dirty && Inv(c.Set(j, row), bytes, NO_HOLE)
    ensures c.Base(row.tag, j) + 16 <= |bytes| ==> row.data == bytes[c.Base(row.tag, j)..c.Base(row.tag, j) + 16]
    ensures i == j || GivenUpHarmless(c, bytes, i)
  {
    assert RowOk(c.Set(j, row), bytes, NO_HOLE, j) && RowOk(c.Set(j, row), bytes, NO_HOLE, i);
  }

  lemma StolenRowKeeps(c: Table, bytes: seq<byte>, i: nat, j: nat, row: Row)
    requires c.kind == Instruction && Inv(c, bytes, i) && i < |c.rows| && j < |c.rows|
    requires |row.data| == 16 && row.valid && !row.dirty && c.Base(row.tag, j) + 16 <= |bytes|
    requires row.data == bytes[c.Base(row.tag, j)..c.Base(row.tag, j) + 16] && (i == j || GivenUpHarmless(c, bytes, i))
    ensures Inv(c.Set(j, row), bytes, NO_HOLE)
  {
    var d := c.Set(j, row);
    forall k | 0 <= k < |d.rows| ensures RowOk(d, bytes, NO_HOLE, k) {
      assert RowOk(c, bytes, i, k);
    }
  }

  lemma RedirectMissAnsweredIff(c: Table, m: Mem, ph: Phase, q: Request)
    requires Redirected(c, m, ph, q) && c.Resident(c.Split(q.address).tag, c.Split(q.address).set_).None?
    requires Status(m, q.address).done
    ensures Answered(c, m, ph, q, Present(c, m, q, true, true), Idle) <==> RedirectKept(c, m, ph, q)
  {
    var p := c.Split(q.address);
    var j := p.set_;
    var data := Stolen(c, m, q.address, j);
    var row := Row(p.tag, data, false, true);
    RedirectMissIs(c, m, ph, q);
    StolenRowInv(c, m.bytes, ph.row, j, row);
    if RedirectKept(c, m, ph, q) {
      var d := c.Set(j, row);
      InstructionFlatIsMemory(c, m.bytes, ph.row);
      InstructionFlatIsMemory(d, m.bytes, NO_HOLE);
      assert d.Split(q.address) == p;
      HitReadsFlat(d, m.bytes, j, q.address, 4);
    }
  }

  /** The exact condition, for all addresses and all states of the pending table. */
  lemma RedirectAnsweredIff(c: Table, m: Mem, ph: Phase, q: Request)
    requires Redirected(c, m, ph, q)
    ensures var r := Present(c, m, q, true, true);
      Answered(c, m, ph, q, r, NextPhase(c, m, ph, q, r)) <==> RedirectKept(c, m, ph, q)
  {
    var p := c.Split(q.address);
    if c.Resident(p.tag, p.set_).Some? {
      RedirectHitAnsweredIff(c, m, ph, q);
    } else {
      RedirectMissIs(c, m, ph, q);
      if Status(m, q.address).done {
        RedirectMissAnsweredIff(c, m, ph, q);
      }
    }
  }

  // ---------------------------------------------------------------- what becomes of it

  /** Answered here and now: by a hit that leaves no wrong row behind, or by the whole block. */
  ghost predicate RedirectServed(c: Table, m: Mem, ph: Phase, q: Request)
    requires Redirected(c, m, ph, q)
  {
    var p := c.Split(q.address);
    (c.Resident(p.tag, p.set_).Some? || Status(m, q.address).done) && RedirectKept(c, m, ph, q)
  }

  /** The redirected fetch is answered with the program's word and leaves the cache sound exactly then. */
  lemma RedirectServedIff(c: Table, m: Mem, ph: Phase, q: Request)
    requires Redirected(c, m, ph, q)
    ensures var r := Present(c, m, q, true, true);
      RedirectServed(c, m, ph, q)
      <==> (r.Done? && Answered(c, m, ph, q, r, Idle) && r.bytes == m.bytes[q.address..q.address + 4])
  {
    var p := c.Split(q.address);
    SplitJoin(c, q.address);
    InstructionFlatIsMemory(c, m.bytes, ph.row);
    if c.Resident(p.tag, p.set_).Some? {
      RedirectHitAnsweredIff(c, m, ph, q);
    } else {
      RedirectMissIs(c, m, ph, q);
      if Status(m, q.address).done {
        RedirectMissAnsweredIff(c, m, ph, q);
      }
    }
  }

  /** The address is asked for again in no cycle. */
  predicate NeverAsked(ops: seq<MemOp>, x: nat) {
    forall k :: 0 <= k < |ops| ==> !((ops[k].DoRead? || ops[k].DoWrite?) && ops[k].address == x)
  }

  lemma {:induction false} UnknownStaysUnknown(m: Mem, ops: seq<MemOp>, x: nat)
    requires Find(m.slots, x) == |m.slots| && NeverAsked(ops, x)
    ensures Find(Run(m, ops).slots, x) == |m.slots|
    decreases |ops|
  {
    if ops != [] {
      var m1 := Apply(m, ops[0]);
      assert forall j :: 0 <= j < |m.slots| ==> m.slots[j].address != x;
      assert forall j :: 0 <= j < |m1.slots| ==> m1.slots[j].address != x;
      UnknownStaysUnknown(m1, ops[1..], x);
    }
  }

  /** A redirected fetch that misses asks memory for a block nobody requested, and waits for ever. */
  lemma RedirectedMissWaitsForEver(c: Table, m: Mem, ops: seq<MemOp>, x: nat)
    requires c.Valid() && c.kind == Instruction && c.Split(x).off % 4 == 0
    requires c.Resident(c.Split(x).tag, c.Split(x).set_).None?
    requires Find(m.slots, x) == |m.slots| && NeverAsked(ops, x)
    ensures ReadAccess(c, Run(m, ops), x, 4, true, true) == Stall(c, Run(m, ops), 1)
  {
    UnknownStaysUnknown(m, ops, x);
    var j := c.Split(x).set_;
    ZeroOverlay(c.rows[j].data);
    assert c.rows[j := c.rows[j]] == c.rows;
  }

  /** A fill that is abandoned leaves zeros under the old tag: in every later cache whose row is still as the fill left
      it, every fetch from the block it held, followed up or not, is answered with zeros. */
  lemma AbandonedFillReadsZeros(c: Table, m: Mem, q: Request, x: nat, later: Table, m': Mem, followup: bool,
      available: bool)
    requires SessionInv(c, m, Idle) && c.kind == Instruction && q.Load? && Faithful(c, m, q, true) && m.readLatency > 0
    requires c.Resident(c.Split(q.address).tag, c.Split(q.address).set_).None?
    requires var i := c.Split(q.address).set_;
      c.rows[i].valid && c.Split(x).set_ == i && c.Split(x).tag == c.rows[i].tag && c.Split(x).off % 4 == 0
    requires var d, i := Present(c, m, q, false, true), c.Split(q.address).set_;
      d.Stall? ==> later.Valid() && later.SameShape(c) && later.rows[i] == d.cache.rows[i]
    ensures Present(c, m, q, false, true).Stall?
        && ReadAccess(later, m', x, 4, followup, available) == Done(later, m', Zeros(4))
  {
    var p := c.Split(q.address);
    var i := c.Victim(p.set_);
    EvictReadFills(c, m, q.address, p.set_, p.set_, p.tag, false);
    FillStarts(c, m, q.address, i);
    assert later.Split(x) == c.Split(x);
    assert Zeros(16)[c.Split(x).off..c.Split(x).off + 4] == Zeros(4);
  }

  // ---------------------------------------------------------------- a walk

  /** Addresses that translate share the first-level entry, and have a second-level entry per page. */
  lemma SecondOfPage(first: nat, va: nat, vb: nat)
    requires Tlb.Admitted(va) && Tlb.Admitted(vb)
    ensures Tlb.SecondAddress(first, va) == Tlb.SecondAddress(first, vb) <==> va / 0x1000 == vb / 0x1000
  {
    TlbProofs.AdmittedIsLow(va);
    TlbProofs.AdmittedIsLow(vb);
    SecondIs(first, va / 0x1000);
    SecondIs(first, vb / 0x1000);
  }

  lemma SecondIs(first: nat, page: nat)
    requires page < 256
    ensures (first % 0x8000_0000 * 0x1000 % TWO32 + page % 256 * 4) % TWO32
        == first % 0x8000_0000 * 0x1000 % TWO32 + page * 4
  {
    var base := first % 0x8000_0000 * 0x1000 % TWO32;
    TableBase(first % 0x8000_0000);
    assert base + page * 4 < TWO32;
  }

  lemma TableBase(k: nat)
    ensures k * 0x1000 % TWO32 <= TWO32 - 0x1000
  {
    var q := k / 0x10_0000;
    assert k == q * 0x10_0000 + k % 0x10_0000;
    DivModUnique(k * 0x1000, TWO32, q, k % 0x10_0000 * 0x1000);
  }

  lemma SameFirst(a: TlbProofs.Ask, b: TlbProofs.Ask, bytes: seq<byte>)
    requires TlbProofs.Holds(a, bytes) && TlbProofs.Holds(b, bytes) && Tlb.Admitted(a.va) && Tlb.Admitted(b.va)
    requires a.ptbr == b.ptbr < TWO32
    ensures a.FirstAt() == b.FirstAt() && a.first == b.first
  {
    TlbProofs.FirstAddressExact(a.ptbr, a.va);
    TlbProofs.FirstAddressExact(b.ptbr, b.va);
  }

  /** With the second read under way and fetch gone to another page, whatever the presentation does, the read goes on
      in the table, and no request is there for the new page. */
  lemma RedirectedReadIsStray(a: TlbProofs.Ask, b: TlbProofs.Ask, t: Tlb.Table, m: Mem, end: nat, other: Option<Slot>,
      junk: Quad, own: Option<Slot>)
    requires SharedWalk.MayWalk(a, t, m, Tlb.WAIT_SECOND, end, other) && b.SecondAt() != a.SecondAt()
    requires b.first == a.first
    ensures !SharedWalk.Stepped(b, t, m, Tlb.WAIT_SECOND, end, other,
        Tlb.GetAddress(b.ptbr, t, m, b.va, Tlb.WAIT_SECOND, junk), own)
  {
    var r := Tlb.GetAddress(b.ptbr, t, m, b.va, Tlb.WAIT_SECOND, junk);
    var x := a.SecondAt();
    var i := Find(m.slots, x);
    if r.Walk? {
      assert r.mem == Status(m, b.SecondAt()).mem;
      assert r.mem.slots[i] == Slot(x, 4, end, Reading);
      assert i != Traffic.At(r.mem, other);
    }
  }

  /** A walk presented at another address that translates goes on to that address's own translation, next to any
      request of the other stage, exactly when its second read is not yet under way or the page is the same. */
  lemma RedirectedWalkAnsweredIff(a: TlbProofs.Ask, b: TlbProofs.Ask, t: Tlb.Table, m: Mem, status: byte, end: nat,
      other: Option<Slot>, junk: Quad)
    requires SharedWalk.MayWalk(a, t, m, status, end, other) && SharedWalk.Waiting(status)
    requires TlbProofs.Holds(b, m.bytes) && TlbProofs.Mapped(b) && Tlb.Admitted(b.va) && b.ptbr == a.ptbr < TWO32
    requires status == Tlb.HELD ==> Traffic.Apart(other, b.SecondAt())
    ensures (exists own :: SharedWalk.Stepped(b, t, m, status, end, other,
        Tlb.GetAddress(b.ptbr, t, m, b.va, status, junk), own))
      <==> (status == Tlb.WAIT_SECOND ==> b.va / 0x1000 == a.va / 0x1000)
  {
    SameFirst(a, b, m.bytes);
    SecondOfPage(a.first, a.va, b.va);
    if status == Tlb.WAIT_SECOND && b.va / 0x1000 != a.va / 0x1000 {
      forall own ensures !SharedWalk.Stepped(b, t, m, status, end, other,
          Tlb.GetAddress(b.ptbr, t, m, b.va, status, junk), own) {
        RedirectedReadIsStray(a, b, t, m, end, other, junk, own);
      }
    } else {
      var own := SharedWalk.WalkStep(b, t, m, status, end, other, junk);
    }
  }

  /** Otherwise it polls for a word nobody requested, and waits for ever. */
  lemma RedirectedWalkWaitsForEver(ptbr: nat, t: Tlb.Table, m: Mem, ops: seq<MemOp>, va: nat, junk: Quad)
    requires t.Valid() && Tlb.EntryValid(t.cachedSecond)
    requires var x := Tlb.SecondAddress(t.cachedSecond, va); Find(m.slots, x) == |m.slots| && NeverAsked(ops, x)
    ensures Tlb.GetAddress(ptbr, t, Run(m, ops), va, Tlb.WAIT_SECOND, junk)
        == Tlb.Walk(t, Run(m, ops), Tlb.WAIT_SECOND, 0)
  {
    UnknownStaysUnknown(m, ops, Tlb.SecondAddress(t.cachedSecond, va));
  }
}
