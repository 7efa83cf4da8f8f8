/** Runs of a cache: requests presented until they complete, memory latency and the other
    stage's traffic in between. Every run answers as the flat memory would. */
module CacheSessions {
  import opened Words
  import opened Memory
  import opened MemoryProofs
  import opened Cache
  import opened CacheProofs
  import opened CacheRefinement

  datatype Request =
    | Load(address: nat, size: nat)
    | Store(address: nat, data: Word, size: nat)

  function Present(c: Table, m: Mem, q: Request, followup: bool, available: bool): (r: Access)
    requires c.Valid()
    ensures r.Done? || r.Stall? ==> r.cache.Valid() && r.cache.SameShape(c)
  {
    match q
    case Load(x, n) => ReadAccess(c, m, x, n, followup, available)
    case Store(x, d, n) => WriteAccess(c, m, x, d, n, followup, available)
  }

  /** A request in progress: its row is being filled, or written back before a store takes it. */
  datatype Phase =
    | Idle
    | Filling(request: Request, row: nat, end: nat)
    | WritingBack(request: Request, row: nat, end: nat)

  function Hole(ph: Phase): int {
    if ph.Filling? then ph.row else NO_HOLE
  }

  // ---------------------------------------------------------------- which requests are answered faithfully

  /** Within one block, in memory, of a size and alignment the code accepts. */
  ghost predicate Shapely(c: Table, bytes: seq<byte>, q: Request)
    requires c.numBlocks > 0
  {
    var p := c.Split(q.address);
    && q.size in {1, 2, 4, 8}
    && p.off + q.size <= c.BlockBytes()
    && c.Base(p.tag, p.set_) + c.BlockBytes() <= |bytes|
    && (q.Load? ==> p.off % 4 == 0)
    && (q.Store? ==> c.kind == Data)
  }

  ghost predicate CanIssue(m: Mem, address: nat) {
    m.stage !in m.issued && FirstFree(m.slots) < |m.slots| && Fresh(m.slots, address)
  }

  /** The guards under which the code keeps the refinement: a store hits only a dirty row of way 0;
      a miss that reads starts at its block's base and evicts a clean row, for a partial store one
      that is not the clean, valid way 1. */
  ghost predicate Faithful(c: Table, m: Mem, q: Request, available: bool)
    requires c.Valid()
  {
    var p := c.Split(q.address);
    && Shapely(c, m.bytes, q)
    && match c.Resident(p.tag, p.set_)
       case Some(i) => q.Store? ==> i == p.set_ && c.rows[i].dirty
       case None =>
         var i := c.Victim(p.set_);
         available ==>
           if q.Store? && q.size == 8 then
             c.rows[i].dirty ==> m.stage == Access && CanIssue(m, RowBase(c, i))
           else
             && p.off == 0 && !c.rows[i].dirty
             && m.stage in {Fetch, Access} && CanIssue(m, q.address)
             && (q.Store? ==> i < c.numBlocks || !c.rows[i].valid)
  }

  // ---------------------------------------------------------------- the invariant of a session

  ghost predicate Refillable(c: Table, m: Mem, q: Request, i: nat)
    requires c.Valid() && i < |c.rows|
  {
    var p := c.Split(q.address);
    && Shapely(c, m.bytes, q) && p.off == 0
    && c.Resident(p.tag, p.set_).None?
    && i == c.Victim(p.set_) && SetOf(c, i) == p.set_
    && !c.rows[i].dirty
    && (q.Store? ==> q.size != 8 && (i < c.numBlocks || !c.rows[i].valid))
  }

  ghost predicate Replaceable(c: Table, m: Mem, q: Request, i: nat)
    requires c.Valid() && i < |c.rows|
  {
    var p := c.Split(q.address);
    && Shapely(c, m.bytes, q) && q.Store? && q.size == 8
    && c.Resident(p.tag, p.set_).None?
    && i == c.Victim(p.set_) && i == p.set_
    && c.rows[i].dirty && c.rows[i].valid
    && InSync(c, m.bytes, i)
  }

  ghost predicate SessionInv(c: Table, m: Mem, ph: Phase) {
    && m.Valid() && Inv(c, m.bytes, Hole(ph))
    && match ph
       case Idle => true
       case Filling(q, i, end) =>
         Refillable(c, m, q, i) && Tracked(m, Slot(q.address, c.BlockBytes(), end, Reading))
       case WritingBack(q, i, end) =>
         i < |c.rows| && Replaceable(c, m, q, i) && Tracked(m, Slot(RowBase(c, i), 8, end, Writing))
  }

  function FlatOf(c: Table, m: Mem, ph: Phase): seq<byte>
    requires c.Valid()
  {
    Flat(c, m.bytes, Hole(ph))
  }

  /** What one presentation does to the flat memory: a completed load returns its bytes, a completed
      store changes exactly its bytes, and nothing else changes anything. */
  ghost predicate Answered(c: Table, m: Mem, ph: Phase, q: Request, r: Access, next: Phase)
    requires c.Valid()
  {
    && (r.Done? || r.Stall?) && r.cache.Valid() && SessionInv(r.cache, r.mem, next)
    && var before := FlatOf(c, m, ph);
       var after := FlatOf(r.cache, r.mem, next);
       && |after| == |before|
       && (r.Stall? ==> after == before)
       && (r.Done? ==> next == Idle && q.address + q.size <= |before| && q.size <= 8)
       && (r.Done? && q.Load? ==> after == before && r.bytes == before[q.address..q.address + q.size])
       && (r.Done? && q.Store? ==> after == Splice(before, q.address, q.data[..q.size]))
  }

  // ---------------------------------------------------------------- filling a row

  lemma ZeroOverlay(data: seq<byte>)
    ensures Overlay(data, []) == data
  {
    assert [] + data[0..] == data;
  }

  /** A block read issued for a clean victim. */
  lemma FillStarts(c: Table, m: Mem, x: nat, i: nat)
    requires m.Valid() && Inv(c, m.bytes, NO_HOLE) && i < |c.rows| && !c.rows[i].dirty
    requires c.Split(x).off == 0 && c.Split(x).set_ == SetOf(c, i)
    requires c.Resident(c.Split(x).tag, SetOf(c, i)).None?
    requires c.Base(c.Split(x).tag, SetOf(c, i)) + c.BlockBytes() <= |m.bytes|
    requires m.stage in {Fetch, Access} && CanIssue(m, x)
    ensures var r := Fill(c, m, x, i, c.Split(x).tag, false, false);
      var end := m.cycle + m.readLatency;
      && (m.readLatency == 0 ==>
            r.Filled? && r.row == i && r.cache == Loaded(c, m.bytes, i, c.Split(x).tag))
      && (m.readLatency > 0 ==>
            && r.Waiting? && r.cache == Dropped(c, i, Zeros(c.BlockBytes()))
            && Tracked(r.mem, Slot(x, c.BlockBytes(), end, Reading)))
      && !r.Lost? && r.mem.Valid() && r.mem.bytes == m.bytes
  {
    SplitJoin(c, x);
    assert m.Proper(x, c.BlockBytes(), 16) by {
      DivModUnique(x, c.BlockBytes(), c.Split(x).tag * c.numBlocks + SetOf(c, i), 0);
    }
    if m.readLatency > 0 {
      var m1 := m.(readCounter := m.readCounter + 1, readBytes := m.readBytes + c.BlockBytes(),
          issued := m.issued + {m.stage});
      AddTracks(m1, x, c.BlockBytes(), Reading);
    }
  }

  /** Polling for the block that row i waits for. */
  lemma FillContinues(c: Table, m: Mem, x: nat, i: nat, end: nat)
    requires m.Valid() && Inv(c, m.bytes, i) && i < |c.rows| && !c.rows[i].dirty
    requires c.Split(x).off == 0 && c.Split(x).set_ == SetOf(c, i)
    requires c.Base(c.Split(x).tag, SetOf(c, i)) + c.BlockBytes() <= |m.bytes|
    requires Tracked(m, Slot(x, c.BlockBytes(), end, Reading))
    ensures var r := Fill(c, m, x, i, c.Split(x).tag, true, false);
      && (end <= m.cycle ==> r.Filled? && r.row == i && r.cache == Loaded(c, m.bytes, i, c.Split(x).tag))
      && (end > m.cycle ==> r.Waiting? && r.cache == c && r.mem == m)
      && !r.Lost? && r.mem.Valid() && r.mem.bytes == m.bytes
  {
    SplitJoin(c, x);
    ZeroOverlay(c.rows[i].data);
    assert c.rows[i].(data := c.rows[i].data) == c.rows[i];
    assert c.rows[i := c.rows[i]] == c.rows;
  }

  /** From way 0 of the set, or from the victim already chosen, a clean victim is filled directly. */
  lemma EvictReadFills(c: Table, m: Mem, x: nat, s: nat, index: nat, tag: nat, followup: bool)
    requires c.Valid() && s < c.numBlocks
    requires var i := c.Victim(s);
      !c.rows[i].dirty && (index == s || (index == i && (i < c.numBlocks || !c.rows[i].valid)))
    ensures EvictRead(c, m, x, index, tag, followup) == Fill(c, m, x, c.Victim(s), tag, followup, false)
  {
  }

  /** The phase after a presentation. */
  function NextPhase(c: Table, m: Mem, ph: Phase, q: Request, r: Access): Phase
    requires c.Valid()
  {
    if !(r.Stall? && r.code == 1) then Idle
    else if ph != Idle then ph
    else
      var i := c.Victim(c.Split(q.address).set_);
      if q.Store? && q.size == 8 then WritingBack(q, i, m.cycle + m.writeLatency)
      else Filling(q, i, m.cycle + m.readLatency)
  }

  // ---------------------------------------------------------------- loads

  lemma LoadHits(c: Table, m: Mem, q: Request, followup: bool, available: bool)
    requires SessionInv(c, m, Idle) && q.Load? && Shapely(c, m.bytes, q)
    requires c.Resident(c.Split(q.address).tag, c.Split(q.address).set_).Some?
    ensures var r := Present(c, m, q, followup, available);
      r.Done? && Answered(c, m, Idle, q, r, Idle)
  {
    var p := c.Split(q.address);
    var i := c.Resident(p.tag, p.set_).value;
    HitReadsFlat(c, m.bytes, i, q.address, q.size);
  }

  /** Row i, just loaded with the block of the address, answers the load. */
  lemma LoadedAnswers(c: Table, bytes: seq<byte>, i: nat, q: Request)
    requires Inv(c, bytes, i) && i < |c.rows| && Shapely(c, bytes, q)
    requires c.Split(q.address).set_ == SetOf(c, i) && c.Resident(c.Split(q.address).tag, SetOf(c, i)).None?
    ensures var p := c.Split(q.address);
      var d := Loaded(c, bytes, i, p.tag);
      && Inv(d, bytes, NO_HOLE) && Flat(d, bytes, NO_HOLE) == Flat(c, bytes, i)
      && q.address + q.size <= |bytes| && p.off + q.size <= |d.rows[i].data|
      && d.rows[i].data[p.off..p.off + q.size] == Flat(c, bytes, i)[q.address..q.address + q.size]
  {
    var p := c.Split(q.address);
    CacheRefinement.Load(c, bytes, i, p.tag);
    var d := Loaded(c, bytes, i, p.tag);
    assert d.Split(q.address) == p;
    HitReadsFlat(d, bytes, i, q.address, q.size);
  }

  /** At latency 0 a load miss is answered at once. */
  lemma LoadMissesAtOnce(c: Table, m: Mem, q: Request)
    requires SessionInv(c, m, Idle) && q.Load? && Faithful(c, m, q, true) && m.readLatency == 0
    requires c.Resident(c.Split(q.address).tag, c.Split(q.address).set_).None?
    ensures Present(c, m, q, false, true).Done? && Answered(c, m, Idle, q, Present(c, m, q, false, true), Idle)
  {
    var p := c.Split(q.address);
    var i := c.Victim(p.set_);
    EvictReadFills(c, m, q.address, p.set_, p.set_, p.tag, false);
    FillStarts(c, m, q.address, i);
    LoadedAfterDrop(c, m.bytes, i, q);
  }

  /** Otherwise the victim is given up and awaits its block. */
  lemma LoadMissesAndWaits(c: Table, m: Mem, q: Request)
    requires SessionInv(c, m, Idle) && q.Load? && Faithful(c, m, q, true) && m.readLatency > 0
    requires c.Resident(c.Split(q.address).tag, c.Split(q.address).set_).None?
    ensures var r := Present(c, m, q, false, true);
      r.Stall? && r.code == 1 && Answered(c, m, Idle, q, r, NextPhase(c, m, Idle, q, r))
  {
    var p := c.Split(q.address);
    var i := c.Victim(p.set_);
    EvictReadFills(c, m, q.address, p.set_, p.set_, p.tag, false);
    FillStarts(c, m, q.address, i);
    DropClean(c, m.bytes, i, Zeros(c.BlockBytes()));
    DroppedStaysRefillable(c, m, q, i, Zeros(c.BlockBytes()));
  }

  lemma LoadMisses(c: Table, m: Mem, q: Request)
    requires SessionInv(c, m, Idle) && q.Load? && Faithful(c, m, q, true)
    requires c.Resident(c.Split(q.address).tag, c.Split(q.address).set_).None?
    ensures var r := Present(c, m, q, false, true);
      && Answered(c, m, Idle, q, r, NextPhase(c, m, Idle, q, r))
      && (r.Done? <==> m.readLatency == 0) && (r.Stall? ==> r.code == 1)
  {
    if m.readLatency == 0 {
      LoadMissesAtOnce(c, m, q);
    } else {
      LoadMissesAndWaits(c, m, q);
    }
  }

  lemma DropClean(c: Table, bytes: seq<byte>, i: nat, data: seq<byte>)
    requires Inv(c, bytes, NO_HOLE) && i < |c.rows| && !c.rows[i].dirty && |data| == c.BlockBytes()
    ensures var d := Dropped(c, i, data);
      Inv(d, bytes, i) && Flat(d, bytes, i) == Flat(c, bytes, NO_HOLE)
  {
    assert RowOk(c, bytes, NO_HOLE, i);
    Drop(c, bytes, i, data);
  }

  /** At latency 0 the victim is given up and loaded in one step. */
  lemma LoadedAfterDrop(c: Table, bytes: seq<byte>, i: nat, q: Request)
    requires Inv(c, bytes, NO_HOLE) && i < |c.rows| && !c.rows[i].dirty && Shapely(c, bytes, q)
    requires c.Split(q.address).set_ == SetOf(c, i) && c.Resident(c.Split(q.address).tag, SetOf(c, i)).None?
    ensures var p := c.Split(q.address);
      var d := Loaded(c, bytes, i, p.tag);
      && Inv(d, bytes, NO_HOLE) && Flat(d, bytes, NO_HOLE) == Flat(c, bytes, NO_HOLE)
      && q.address + q.size <= |bytes| && p.off + q.size <= |d.rows[i].data|
      && d.rows[i].data[p.off..p.off + q.size] == Flat(c, bytes, NO_HOLE)[q.address..q.address + q.size]
  {
    var d := Dropped(c, i, c.rows[i].data);
    DropClean(c, bytes, i, c.rows[i].data);
    assert d.rows == c.rows;
    LoadedAnswers(c, bytes, i, q);
  }

  lemma DroppedStaysRefillable(c: Table, m: Mem, q: Request, i: nat, data: seq<byte>)
    requires c.Valid() && i < |c.rows| && |data| == c.BlockBytes() && Refillable(c, m, q, i)
    ensures Refillable(Dropped(c, i, data), m, q, i)
  {
  }

  lemma LoadContinues(c: Table, m: Mem, q: Request, i: nat, end: nat)
    requires SessionInv(c, m, Filling(q, i, end)) && q.Load?
    ensures var ph := Filling(q, i, end);
      var r := Present(c, m, q, true, true);
      Answered(c, m, ph, q, r, NextPhase(c, m, ph, q, r))
          && (if end <= m.cycle then r.Done? else r.Stall? && r.code == 1)
  {
    var p := c.Split(q.address);
    EvictReadFills(c, m, q.address, p.set_, p.set_, p.tag, true);
    FillContinues(c, m, q.address, i, end);
    if end <= m.cycle {
      LoadedAnswers(c, m.bytes, i, q);
    }
  }

  lemma LoadWithoutAccess(c: Table, m: Mem, q: Request, followup: bool)
    requires SessionInv(c, m, Idle) && q.Load? && Shapely(c, m.bytes, q)
    requires c.Resident(c.Split(q.address).tag, c.Split(q.address).set_).None?
    ensures var r := Present(c, m, q, followup, false);
      r.Stall? && r.code == 2 && Answered(c, m, Idle, q, r, Idle)
  {
  }

  // ---------------------------------------------------------------- stores

  lemma StoreHits(c: Table, m: Mem, q: Request, followup: bool, available: bool)
    requires SessionInv(c, m, Idle) && q.Store? && Faithful(c, m, q, available)
    requires c.Resident(c.Split(q.address).tag, c.Split(q.address).set_).Some?
    ensures var r := Present(c, m, q, followup, available);
      r.Done? && Answered(c, m, Idle, q, r, Idle)
  {
    var p := c.Split(q.address);
    var i := p.set_;
    assert Patched(c.rows[i], p.off, q.data, q.size).(dirty := true) == Patched(c.rows[i], p.off, q.data, q.size);
    Patch(c, m.bytes, NO_HOLE, i, q.address, q.data, q.size);
  }

  /** Row i, just loaded with the block, takes the store. */
  lemma LoadedTakesStore(c: Table, bytes: seq<byte>, i: nat, q: Request)
    requires Inv(c, bytes, i) && i < |c.rows| && q.Store? && Shapely(c, bytes, q)
    requires c.Split(q.address).set_ == SetOf(c, i) && c.Resident(c.Split(q.address).tag, SetOf(c, i)).None?
    ensures q.address + q.size <= |bytes|
    ensures var p := c.Split(q.address);
      var d := PatchedAt(Loaded(c, bytes, i, p.tag), i, p.off, q.data, q.size);
      && Inv(d, bytes, NO_HOLE)
      && Flat(d, bytes, NO_HOLE) == Splice(Flat(c, bytes, i), q.address, q.data[..q.size])
  {
    var p := c.Split(q.address);
    CacheRefinement.Load(c, bytes, i, p.tag);
    var d := Loaded(c, bytes, i, p.tag);
    assert d.Split(q.address) == p;
    Patch(d, bytes, NO_HOLE, i, q.address, q.data, q.size);
  }

  /** What Put leaves in a loaded row is the patched row. */
  lemma PutAfterLoad(c: Table, m: Mem, bytes: seq<byte>, i: nat, p: Place, data: Word, size: nat)
    requires c.Valid() && c.kind == Data && i < |c.rows| && p.off + size <= 8
    requires c.Base(p.tag, SetOf(c, i)) + c.BlockBytes() <= |bytes|
    ensures var d := Loaded(c, bytes, i, p.tag);
      Put(d, m, i, p, data, size) == Done(PatchedAt(d, i, p.off, data, size), m, [])
    ensures size == 8 ==>
      Put(c, m, i, p, data, size) == Done(PatchedAt(Loaded(c, bytes, i, p.tag), i, p.off, data, size), m, [])
  {
    var d := Loaded(c, bytes, i, p.tag);
    if size == 8 {
      assert Splice(c.rows[i].data, 0, data[..8]) == data;
      assert Splice(d.rows[i].data, 0, data[..8]) == data;
      assert Put(c, m, i, p, data, size).cache.rows == PatchedAt(d, i, p.off, data, size).rows;
    }
  }

  /** A whole-block store into a victim in step with memory. */
  lemma WholeStore(c: Table, m: Mem, bytes: seq<byte>, i: nat, q: Request)
    requires Inv(c, bytes, NO_HOLE) && i < |c.rows| && (c.rows[i].valid ==> InSync(c, bytes, i))
    requires q.Store? && q.size == 8 && Shapely(c, bytes, q)
    requires c.Split(q.address).set_ == SetOf(c, i) && c.Resident(c.Split(q.address).tag, SetOf(c, i)).None?
    ensures q.address + 8 <= |bytes|
    ensures var r := Put(c, m, i, c.Split(q.address), q.data, 8);
      && r.Done? && r.mem == m && Inv(r.cache, bytes, NO_HOLE)
      && Flat(r.cache, bytes, NO_HOLE) == Splice(Flat(c, bytes, NO_HOLE), q.address, q.data[..8])
  {
    var p := c.Split(q.address);
    var d := Dropped(c, i, c.rows[i].data);
    Drop(c, bytes, i, c.rows[i].data);
    assert d.Split(q.address) == p;
    LoadedTakesStore(d, bytes, i, q);
    PutAfterLoad(c, m, bytes, i, p, q.data, 8);
    assert Loaded(d, bytes, i, p.tag).rows == Loaded(c, bytes, i, p.tag).rows;
  }

  lemma CleanRowInSync(c: Table, bytes: seq<byte>, hole: int, i: nat)
    requires Inv(c, bytes, hole) && i < |c.rows| && i != hole && !c.rows[i].dirty
    ensures c.rows[i].valid ==> InSync(c, bytes, i)
  {
    assert RowOk(c, bytes, hole, i);
  }

  lemma WholeStoreCleanMiss(c: Table, m: Mem, q: Request, followup: bool, available: bool)
    requires SessionInv(c, m, Idle) && q.Store? && q.size == 8 && Shapely(c, m.bytes, q)
    requires c.Resident(c.Split(q.address).tag, c.Split(q.address).set_).None?
    requires !c.rows[c.Victim(c.Split(q.address).set_)].dirty
    ensures var r := Present(c, m, q, followup, available);
      r.Done? && Answered(c, m, Idle, q, r, Idle)
  {
    var i := c.Victim(c.Split(q.address).set_);
    CleanRowInSync(c, m.bytes, NO_HOLE, i);
    WholeStore(c, m, m.bytes, i, q);
  }

  /** Issuing the write-back of a dirty victim. */
  lemma WriteBackIssued(c: Table, m: Mem, s: nat)
    requires m.Valid() && Inv(c, m.bytes, NO_HOLE) && c.kind == Data && s < c.numBlocks
    requires c.rows[c.Victim(s)].dirty && m.stage == Access && CanIssue(m, RowBase(c, c.Victim(s)))
    ensures var i := c.Victim(s);
      var r := Write(m, c.OldAddress(i), c.rows[i].data, 8);
      && i == s && c.rows[i].valid && c.OldAddress(i) == RowBase(c, i) && RowBase(c, i) + 8 <= |m.bytes|
      && r.mem.Valid() && r.mem.bytes == Splice(m.bytes, RowBase(c, i), c.rows[i].data)
      && (r.done <==> m.writeLatency == 0) && r.mem.stage == Access && Access in r.mem.issued
      && (!r.done ==> Tracked(r.mem, Slot(RowBase(c, i), 8, m.cycle + m.writeLatency, Writing)))
  {
    var i := c.Victim(s);
    DirtyVictimIsWayZero(c, m.bytes, NO_HOLE, s);
    assert RowOk(c, m.bytes, NO_HOLE, i);
    var x := RowBase(c, i);
    assert m.Proper(x, 8, 8) by { DivModUnique(x, 8, c.rows[i].tag * c.numBlocks + i, 0); }
    assert c.rows[i].data[..8] == c.rows[i].data;
    if m.writeLatency > 0 {
      WriteQueues(m, x, c.rows[i].data, 8);
    }
  }

  /** The row is replaced whole, so clearing its dirty bit first makes no difference. */
  lemma PutIgnoresDirty(c: Table, m: Mem, i: nat, p: Place, data: Word)
    requires c.Valid() && c.kind == Data && i < |c.rows|
    ensures Put(c.Set(i, c.rows[i].(dirty := false)), m, i, p, data, 8) == Put(c, m, i, p, data, 8)
  {
    if p.off == 0 {
      assert Put(c.Set(i, c.rows[i].(dirty := false)), m, i, p, data, 8).cache.rows
          == Put(c, m, i, p, data, 8).cache.rows;
    }
  }

  lemma WholeStoreDirtyMiss(c: Table, m: Mem, q: Request)
    requires SessionInv(c, m, Idle) && q.Store? && q.size == 8 && Faithful(c, m, q, true)
    requires c.Resident(c.Split(q.address).tag, c.Split(q.address).set_).None?
    requires c.rows[c.Victim(c.Split(q.address).set_)].dirty
    ensures var r := Present(c, m, q, false, true);
      && Answered(c, m, Idle, q, r, NextPhase(c, m, Idle, q, r))
      && (if m.writeLatency == 0 then r.Done? else r.Stall? && r.code == 1)
  {
    var p := c.Split(q.address);
    var i := c.Victim(p.set_);
    WriteBackIssued(c, m, p.set_);
    WrittenBack(c, m.bytes, i);
    var r := Write(m, c.OldAddress(i), c.rows[i].data, 8);
    if r.done {
      PutIgnoresDirty(c, r.mem, i, p, q.data);
      WholeStore(c, r.mem, r.mem.bytes, i, q);
    }
  }

  lemma WholeStoreContinues(c: Table, m: Mem, q: Request, i: nat, end: nat)
    requires SessionInv(c, m, WritingBack(q, i, end))
    ensures var ph := WritingBack(q, i, end);
      var r := Present(c, m, q, true, true);
      Answered(c, m, ph, q, r, NextPhase(c, m, ph, q, r))
          && (if end <= m.cycle then r.Done? else r.Stall? && r.code == 1)
  {
    var p := c.Split(q.address);
    WayZeroWriteBackExact(c, i);
    var r := Status(m, RowBase(c, i));
    assert r.fill == [];
    if r.done {
      PutIgnoresDirty(c, r.mem, i, p, q.data);
      WholeStore(c, r.mem, m.bytes, i, q);
    }
  }

  lemma PartStoreMisses(c: Table, m: Mem, q: Request)
    requires SessionInv(c, m, Idle) && q.Store? && q.size != 8 && Faithful(c, m, q, true)
    requires c.Resident(c.Split(q.address).tag, c.Split(q.address).set_).None?
    ensures var r := Present(c, m, q, false, true);
      && Answered(c, m, Idle, q, r, NextPhase(c, m, Idle, q, r))
      && (if m.readLatency == 0 then r.Done? else r.Stall? && r.code == 1)
  {
    var p := c.Split(q.address);
    var i := c.Victim(p.set_);
    EvictReadFills(c, m, q.address, p.set_, i, p.tag, false);
    FillStarts(c, m, q.address, i);
    if m.readLatency == 0 {
      var d := Dropped(c, i, c.rows[i].data);
      DropClean(c, m.bytes, i, c.rows[i].data);
      assert d.rows == c.rows;
      LoadedTakesStore(c, m.bytes, i, q);
      PutAfterLoad(c, EvictRead(c, m, q.address, i, p.tag, false).mem, m.bytes, i, p, q.data, q.size);
    } else {
      DropClean(c, m.bytes, i, Zeros(8));
      DroppedStaysRefillable(c, m, q, i, Zeros(8));
    }
  }

  lemma PartStoreContinues(c: Table, m: Mem, q: Request, i: nat, end: nat)
    requires SessionInv(c, m, Filling(q, i, end)) && q.Store?
    ensures var ph := Filling(q, i, end);
      var r := Present(c, m, q, true, true);
      Answered(c, m, ph, q, r, NextPhase(c, m, ph, q, r))
          && (if end <= m.cycle then r.Done? else r.Stall? && r.code == 1)
  {
    var p := c.Split(q.address);
    EvictReadFills(c, m, q.address, p.set_, i, p.tag, true);
    FillContinues(c, m, q.address, i, end);
    if end <= m.cycle {
      LoadedTakesStore(c, m.bytes, i, q);
      PutAfterLoad(c, EvictRead(c, m, q.address, i, p.tag, true).mem, m.bytes, i, p, q.data, q.size);
    }
  }

  lemma StoreWithoutAccess(c: Table, m: Mem, q: Request, followup: bool)
    requires SessionInv(c, m, Idle) && q.Store? && Shapely(c, m.bytes, q)
    requires c.Resident(c.Split(q.address).tag, c.Split(q.address).set_).None?
    requires q.size != 8 || c.rows[c.Victim(c.Split(q.address).set_)].dirty
    ensures var r := Present(c, m, q, followup, false);
      r.Stall? && r.code == 2 && Answered(c, m, Idle, q, r, Idle)
  {
  }

  // ---------------------------------------------------------------- every presentation

  /** How a request may be presented: first with its stage's access free, or with the access spent
      on the translation; in progress, as a follow-up with the access free. */
  ghost predicate Legal(c: Table, m: Mem, ph: Phase, q: Request, followup: bool, available: bool)
    requires c.Valid()
  {
    if ph == Idle then Faithful(c, m, q, available) && (available ==> !followup)
    else q == ph.request && followup && available
  }

  lemma FirstLoadAnswered(c: Table, m: Mem, q: Request, followup: bool, available: bool)
    requires SessionInv(c, m, Idle) && q.Load? && Legal(c, m, Idle, q, followup, available)
    ensures var r := Present(c, m, q, followup, available);
      Answered(c, m, Idle, q, r, NextPhase(c, m, Idle, q, r))
  {
    var p := c.Split(q.address);
    if c.Resident(p.tag, p.set_).Some? {
      LoadHits(c, m, q, followup, available);
    } else if available {
      LoadMisses(c, m, q);
    } else {
      LoadWithoutAccess(c, m, q, followup);
    }
  }

  lemma FirstStoreAnswered(c: Table, m: Mem, q: Request, followup: bool, available: bool)
    requires SessionInv(c, m, Idle) && q.Store? && Legal(c, m, Idle, q, followup, available)
    ensures var r := Present(c, m, q, followup, available);
      Answered(c, m, Idle, q, r, NextPhase(c, m, Idle, q, r))
  {
    var p := c.Split(q.address);
    if c.Resident(p.tag, p.set_).Some? {
      StoreHits(c, m, q, followup, available);
    } else if q.size == 8 && !c.rows[c.Victim(p.set_)].dirty {
      WholeStoreCleanMiss(c, m, q, followup, available);
    } else if !available {
      StoreWithoutAccess(c, m, q, followup);
    } else if q.size == 8 {
      WholeStoreDirtyMiss(c, m, q);
    } else {
      PartStoreMisses(c, m, q);
    }
  }

  /** The refinement step: any legal presentation, of a load or a store, hit or miss, first or
      follow-up, is answered as the flat memory would answer it. */
  lemma PresentationAnswered(c: Table, m: Mem, ph: Phase, q: Request, followup: bool, available: bool)
    requires SessionInv(c, m, ph) && Legal(c, m, ph, q, followup, available)
    ensures var r := Present(c, m, q, followup, available);
      Answered(c, m, ph, q, r, NextPhase(c, m, ph, q, r))
  {
    match ph
    case Filling(_, i, end) =>
      if q.Load? { LoadContinues(c, m, q, i, end); } else { PartStoreContinues(c, m, q, i, end); }
    case WritingBack(_, i, end) =>
      WholeStoreContinues(c, m, q, i, end);
    case Idle =>
      if q.Load? { FirstLoadAnswered(c, m, q, followup, available); }
          else { FirstStoreAnswered(c, m, q, followup, available); }
  }

  // ---------------------------------------------------------------- when a presentation completes

  /** The cycle a presentation can complete in: the one its request ends in, or, for a first one, this one, or
      later by the latency of what it has to issue. None when it cannot issue it. */
  function DueCycle(c: Table, m: Mem, ph: Phase, q: Request, available: bool): (r: Option<nat>)
    requires c.Valid()
  {
    var p := c.Split(q.address);
    var whole := q.Store? && q.size == 8;
    if ph != Idle then Some(ph.end)
    else if c.Resident(p.tag, p.set_).Some? || (whole && !c.rows[c.Victim(p.set_)].dirty) then Some(m.cycle)
    else if !available then None
    else Some(m.cycle + if whole then m.writeLatency else m.readLatency)
  }

  lemma FirstLoadTimed(c: Table, m: Mem, q: Request, followup: bool, available: bool)
    requires SessionInv(c, m, Idle) && q.Load? && Legal(c, m, Idle, q, followup, available)
    ensures var r, due := Present(c, m, q, followup, available), DueCycle(c, m, Idle, q, available);
      if due.Some? && due.value <= m.cycle then r.Done? else r.Stall? && r.code == if due.None? then 2 else 1
  {
    var p := c.Split(q.address);
    if c.Resident(p.tag, p.set_).Some? {
      LoadHits(c, m, q, followup, available);
    } else if available {
      LoadMisses(c, m, q);
    } else {
      LoadWithoutAccess(c, m, q, followup);
    }
  }

  lemma FirstStoreTimed(c: Table, m: Mem, q: Request, followup: bool, available: bool)
    requires SessionInv(c, m, Idle) && q.Store? && Legal(c, m, Idle, q, followup, available)
    ensures var r, due := Present(c, m, q, followup, available), DueCycle(c, m, Idle, q, available);
      if due.Some? && due.value <= m.cycle then r.Done? else r.Stall? && r.code == if due.None? then 2 else 1
  {
    var p := c.Split(q.address);
    if c.Resident(p.tag, p.set_).Some? {
      StoreHits(c, m, q, followup, available);
    } else if q.size == 8 && !c.rows[c.Victim(p.set_)].dirty {
      WholeStoreCleanMiss(c, m, q, followup, available);
    } else if !available {
      StoreWithoutAccess(c, m, q, followup);
    } else if q.size == 8 {
      WholeStoreDirtyMiss(c, m, q);
    } else {
      PartStoreMisses(c, m, q);
    }
  }

  /** Any legal presentation completes exactly when its cycle has come, and otherwise stalls, with code 2 exactly
      when the stage's access was spent. */
  lemma PresentationTimed(c: Table, m: Mem, ph: Phase, q: Request, followup: bool, available: bool)
    requires SessionInv(c, m, ph) && Legal(c, m, ph, q, followup, available)
    ensures var r, due := Present(c, m, q, followup, available), DueCycle(c, m, ph, q, available);
      if due.Some? && due.value <= m.cycle then r.Done? else r.Stall? && r.code == if due.None? then 2 else 1
  {
    match ph
    case Filling(_, i, end) =>
      if q.Load? { LoadContinues(c, m, q, i, end); } else { PartStoreContinues(c, m, q, i, end); }
    case WritingBack(_, i, end) =>
      WholeStoreContinues(c, m, q, i, end);
    case Idle =>
      if q.Load? { FirstLoadTimed(c, m, q, followup, available); }
      else { FirstStoreTimed(c, m, q, followup, available); }
  }

  /** The row of a set to be replaced: of a free way, way 0 first; with both taken way 0's, unless it is dirty and way
      1 is clean. */
  function RowToReplace(c: Table, s: nat): nat {
    if s + c.numBlocks >= |c.rows| || !c.rows[s].valid then s
    else if !c.rows[s + c.numBlocks].valid then s + c.numBlocks
    else if !c.rows[s].dirty then s
    else if !c.rows[s + c.numBlocks].dirty then s + c.numBlocks
    else s
  }

  ghost predicate RowTaken(c: Table, after: seq<Row>, i: nat, tag: nat, bytes: seq<byte>, x: nat) {
    i < |c.rows| && x + 8 <= |bytes| && after == c.rows[i := Row(tag, bytes[x..x + 8], false, true)]
  }

  ghost predicate RowGivenUp(c: Table, after: seq<Row>, i: nat) {
    i < |c.rows| && after == c.rows[i := c.rows[i].(data := Zeros(8))]
  }

  lemma VictimIsReplaced(c: Table, s: nat)
    requires c.Valid() && c.kind == Data && s < c.numBlocks
    ensures c.Victim(s) == RowToReplace(c, s)
  {
  }

  /** A missing load takes that row, at once for its block or first, while the block is on its way, by clearing it, and
      changes no other row. */
  lemma MissTakesOneRow(c: Table, m: Mem, q: Request)
    requires SessionInv(c, m, Idle) && q.Load? && Faithful(c, m, q, true) && c.kind == Data
    requires c.Resident(c.Split(q.address).tag, c.Split(q.address).set_).None?
    ensures var p := c.Split(q.address);
      var r := Present(c, m, q, false, true);
      if m.readLatency == 0 then
        r.Done? && RowTaken(c, r.cache.rows, RowToReplace(c, p.set_), p.tag, m.bytes, q.address)
      else
        r.Stall? && RowGivenUp(c, r.cache.rows, RowToReplace(c, p.set_))
  {
    var p := c.Split(q.address);
    VictimIsReplaced(c, p.set_);
    SplitJoin(c, q.address);
    EvictReadFills(c, m, q.address, p.set_, p.set_, p.tag, false);
    FillStarts(c, m, q.address, c.Victim(p.set_));
  }

  // ---------------------------------------------------------------- runs

  datatype State = State(cache: Table, mem: Mem, phase: Phase)

  /** A presentation, or anything the simulator or the other stage does with memory. */
  datatype Event =
    | Ask(request: Request, followup: bool, available: bool)
    | Other(op: MemOp)

  ghost predicate Good(s: State) {
    SessionInv(s.cache, s.mem, s.phase)
  }

  /** Only the memory stage writes memory, and nobody else uses the address of the request in progress. */
  ghost predicate LegalEvent(s: State, e: Event)
    requires Good(s)
  {
    match e
    case Ask(q, followup, available) => Legal(s.cache, s.mem, s.phase, q, followup, available)
    case Other(op) =>
      && (op.DoWrite? ==> s.mem.stage != Access)
      && match s.phase
         case Idle => true
         case Filling(q, i, end) => !Touches(op, q.address)
         case WritingBack(q, i, end) => !Touches(op, RowBase(s.cache, i))
  }

  ghost function Reply(s: State, e: Event): Access
    requires Good(s) && e.Ask?
  {
    Present(s.cache, s.mem, e.request, e.followup, e.available)
  }

  ghost function StepState(s: State, e: Event): State
    requires Good(s)
  {
    match e
    case Other(op) => s.(mem := Apply(s.mem, op))
    case Ask(q, followup, available) =>
      var r := Reply(s, e);
      if r.Done? || r.Stall? then State(r.cache, r.mem, NextPhase(s.cache, s.mem, s.phase, q, r)) else s
  }

  lemma StepIsGood(s: State, e: Event)
    requires Good(s) && LegalEvent(s, e)
    ensures Good(StepState(s, e))
    ensures e.Ask? ==> Answered(s.cache, s.mem, s.phase, e.request, Reply(s, e), StepState(s, e).phase)
    ensures e.Other? ==> FlatOf(s.cache, s.mem, s.phase) == FlatOf(s.cache, Apply(s.mem, e.op), s.phase)
  {
    match e
    case Ask(q, followup, available) =>
      PresentationAnswered(s.cache, s.mem, s.phase, q, followup, available);
    case Other(op) =>
      assert Apply(s.mem, op).bytes == s.mem.bytes;
      match s.phase {
        case Idle =>
        case Filling(q, i, end) =>
          ApplyKeepsTracked(s.mem, op, Slot(q.address, s.cache.BlockBytes(), end, Reading));
        case WritingBack(q, i, end) =>
          ApplyKeepsTracked(s.mem, op, Slot(RowBase(s.cache, i), 8, end, Writing));
      }
  }

  ghost predicate LegalRun(s: State, events: seq<Event>)
    requires Good(s)
    decreases |events|
  {
    events == [] ||
    (LegalEvent(s, events[0]) && Good(StepState(s, events[0])) && LegalRun(StepState(s, events[0]), events[1..]))
  }

  ghost function RunState(s: State, events: seq<Event>): State
    requires Good(s) && LegalRun(s, events)
    decreases |events|
  {
    if events == [] then s else RunState(StepState(s, events[0]), events[1..])
  }

  lemma {:induction false} RunKeepsShape(s: State, events: seq<Event>)
    requires Good(s) && LegalRun(s, events)
    ensures RunState(s, events).cache.SameShape(s.cache)
    decreases |events|
  {
    if events != [] {
      RunKeepsShape(StepState(s, events[0]), events[1..]);
    }
  }

  /** The requests a run completes, in order, with the bytes returned. */
  ghost function Log(s: State, events: seq<Event>): seq<(Request, seq<byte>)>
    requires Good(s) && LegalRun(s, events)
    decreases |events|
  {
    if events == [] then []
    else
      var rest := Log(StepState(s, events[0]), events[1..]);
      if events[0].Ask? && Reply(s, events[0]).Done? then
        [(events[0].request, Reply(s, events[0]).bytes)] + rest
      else rest
  }

  /** The specification: a memory of bytes, loads and stores one after the other. */
  ghost predicate FlatAnswers(flat: seq<byte>, log: seq<(Request, seq<byte>)>, last: seq<byte>)
    decreases |log|
  {
    if log == [] then last == flat
    else
      var (q, bytes) := log[0];
      && q.address + q.size <= |flat| && q.size <= 8
      && match q
         case Load(x, n) => bytes == flat[x..x + n] && FlatAnswers(flat, log[1..], last)
         case Store(x, d, n) => FlatAnswers(Splice(flat, x, d[..n]), log[1..], last)
  }

  /** The cache refinement: over every legal run, through stalls, follow-ups, write-backs and the
      other stage's traffic, the completed requests are answered exactly as by a flat memory, and
      the invariant, single residence included, holds at the end. */
  lemma {:induction false} RunRefinesFlatMemory(s: State, events: seq<Event>)
    requires Good(s) && LegalRun(s, events)
    ensures var t := RunState(s, events);
      && Good(t) && Unique(t.cache)
      && FlatAnswers(FlatOf(s.cache, s.mem, s.phase), Log(s, events), FlatOf(t.cache, t.mem, t.phase))
    decreases |events|
  {
    if events != [] {
      StepIsGood(s, events[0]);
      var u := StepState(s, events[0]);
      RunRefinesFlatMemory(u, events[1..]);
      if events[0].Ask? && Reply(s, events[0]).Done? {
        var log := Log(s, events);
        assert log[1..] == Log(u, events[1..]);
      }
    }
  }

  // ---------------------------------------------------------------- the instruction cache

  /** Nothing dirties an instruction row, so through the rows one sees memory itself. */
  lemma InstructionFlatIsMemory(c: Table, bytes: seq<byte>, hole: int)
    requires Inv(c, bytes, hole) && c.kind == Instruction
    ensures Flat(c, bytes, hole) == bytes
  {
    forall a | 0 <= a < |bytes| ensures AbsByte(c, bytes, hole, a) == bytes[a] {
      var p := c.Split(a);
      var r := Covers(c, hole, p.tag, p.set_);
      if r.Some? {
        CleanRowInSync(c, bytes, hole, r.value);
        SyncByte(c, bytes, r.value, a);
      }
    }
  }

  /** Fills in flight: at any latency and at every point of a run, every valid instruction row but the
      one awaiting its block equals memory, and no load completes while that row is outstanding, so
      every completed load returns memory's bytes. */
  lemma InstructionFillInFlight(s: State, events: seq<Event>, e: Event, i: nat)
    requires Good(s) && s.cache.kind == Instruction && LegalRun(s, events)
    requires Good(RunState(s, events)) && LegalEvent(RunState(s, events), e)
    ensures var t := RunState(s, events);
      && (i < |t.cache.rows| && t.cache.rows[i].valid && i != Hole(t.phase) ==> InSync(t.cache, t.mem.bytes, i))
      && (e.Ask? && Reply(t, e).Done? ==>
            && StepState(t, e).phase == Idle
            && e.request.address + e.request.size <= |t.mem.bytes|
            && Reply(t, e).bytes == t.mem.bytes[e.request.address..e.request.address + e.request.size])
  {
    var t := RunState(s, events);
    RunKeepsShape(s, events);
    if i < |t.cache.rows| && i != Hole(t.phase) {
      CleanRowInSync(t.cache, t.mem.bytes, Hole(t.phase), i);
    }
    StepIsGood(t, e);
    InstructionFlatIsMemory(t.cache, t.mem.bytes, Hole(t.phase));
  }
}
