/** One presentation of a cache request next to the other stage's request. */
module SharedCache {
  import opened Words
  import opened Memory
  import opened Traffic
  import opened Cache
  import opened CacheProofs
  import opened CacheSessions

  /** The request a cache session has in the pending table. */
  function Claim(c: Table, ph: Phase): Option<Slot>
    requires c.Valid()
  {
    match ph
    case Idle => None
    case Filling(q, i, end) => Some(Slot(q.address, c.BlockBytes(), end, Reading))
    case WritingBack(q, i, end) => if i < |c.rows| then Some(Slot(RowBase(c, i), 8, end, Writing)) else None
  }

  /** The guards of a faithful presentation that concern the cache alone. */
  ghost predicate Suits(c: Table, bytes: seq<byte>, q: Request, available: bool)
    requires c.Valid()
  {
    var p := c.Split(q.address);
    && Shapely(c, bytes, q)
    && match c.Resident(p.tag, p.set_)
       case Some(i) => q.Store? ==> i == p.set_ && c.rows[i].dirty
       case None =>
         var i := c.Victim(p.set_);
         available && !(q.Store? && q.size == 8) ==>
           p.off == 0 && !c.rows[i].dirty && (q.Store? ==> i < c.numBlocks || !c.rows[i].valid)
  }

  /** What a first presentation with the stage's access free asks memory for, if anything. */
  function Wanted(c: Table, q: Request): Option<nat>
    requires c.Valid()
  {
    var p := c.Split(q.address);
    if c.Resident(p.tag, p.set_).Some? then None
    else if q.Store? && q.size == 8 then
      (if c.rows[c.Victim(p.set_)].dirty then Some(RowBase(c, c.Victim(p.set_))) else None)
    else Some(q.address)
  }

  /** The session may present the request: what it asks for anew is not the other stage's. */
  ghost predicate MayAsk(c: Table, m: Mem, ph: Phase, q: Request, followup: bool, available: bool,
      other: Option<Slot>) {
    && SessionInv(c, m, ph) && Shared(m, Claim(c, ph), other)
    && if ph == Idle then
         && Suits(c, m.bytes, q, available) && (available ==> !followup)
         && (available && Wanted(c, q).Some? ==>
               && m.stage !in m.issued && Apart(other, Wanted(c, q).value)
               && (if c.kind == Data then m.stage == Access else m.stage == Fetch))
       else q == ph.request && followup && available
  }

  lemma MayAskIsLegal(c: Table, m: Mem, ph: Phase, q: Request, followup: bool, available: bool, other: Option<Slot>)
    requires MayAsk(c, m, ph, q, followup, available, other)
    ensures Legal(c, m, ph, q, followup, available)
  {
    if ph == Idle && available && Wanted(c, q).Some? {
      Room(m, None, other);
      FreshShared(m, None, other, Wanted(c, q).value);
    }
  }

  /** What a presentation does to memory: nothing, or a block read, or a poll, or the write-back of a dirty row. */
  ghost predicate MemoryMoves(c: Table, m: Mem, r: Mem)
    requires c.Valid()
  {
    && SameClock(m, r) && r.Valid() && |r.bytes| == |m.bytes|
    && (r.bytes == m.bytes
        || exists i :: 0 <= i < |c.rows| && c.rows[i].dirty && |c.rows[i].data| == 8 && RowBase(c, i) + 8 <= |m.bytes|
                       && r.bytes == Splice(m.bytes, RowBase(c, i), c.rows[i].data))
  }

  ghost predicate Stepped(c: Table, m: Mem, ph: Phase, q: Request, other: Option<Slot>, r: Access, own: Option<Slot>)
    requires c.Valid()
  {
    && (r.Done? || r.Stall?) && r.cache.Valid()
    && Answered(c, m, ph, q, r, NextPhase(c, m, ph, q, r))
    && MemoryMoves(c, m, r.mem) && (c.kind == Instruction ==> r.mem.bytes == m.bytes)
    && Shared(r.mem, own, other) && Pending(own) == Claim(r.cache, NextPhase(c, m, ph, q, r))
  }

  // ---------------------------------------------------------------- what becomes of memory, case by case

  /** A presentation that does not reach memory. */
  lemma UntouchedStep(c: Table, m: Mem, ph: Phase, q: Request, followup: bool, available: bool, other: Option<Slot>)
    returns (own: Option<Slot>)
    requires MayAsk(c, m, ph, q, followup, available, other) && ph == Idle && (!available || Wanted(c, q).None?)
    ensures Stepped(c, m, ph, q, other, Present(c, m, q, followup, available), own)
  {
    MayAskIsLegal(c, m, ph, q, followup, available, other);
    PresentationAnswered(c, m, ph, q, followup, available);
    UntouchedIs(c, m, q, followup, available);
    own := None;
  }

  lemma UntouchedIs(c: Table, m: Mem, q: Request, followup: bool, available: bool)
    requires c.Valid() && Suits(c, m.bytes, q, available) && (!available || Wanted(c, q).None?)
    ensures var r := Present(c, m, q, followup, available);
      (r.Done? || r.Stall?) ==> r.mem == m && (r.Stall? ==> r.code == 2)
  {
  }

  /** The first read of a block. */
  lemma BlockReadStep(c: Table, m: Mem, q: Request, other: Option<Slot>) returns (own: Option<Slot>)
    requires MayAsk(c, m, Idle, q, false, true, other) && Wanted(c, q) == Some(q.address) && !(q.Store? && q.size == 8)
    ensures Stepped(c, m, Idle, q, other, Present(c, m, q, false, true), own)
  {
    MayAskIsLegal(c, m, Idle, q, false, true, other);
    PresentationAnswered(c, m, Idle, q, false, true);
    BlockReadIs(c, m, q);
    BlockIsProper(c, m, q);
    ReadShared(m, other, q.address, c.BlockBytes());
    own := if m.readLatency == 0 then None else Some(Slot(q.address, c.BlockBytes(), m.cycle + m.readLatency, Reading));
  }

  lemma BlockIsProper(c: Table, m: Mem, q: Request)
    requires c.Valid() && Shapely(c, m.bytes, q) && c.Split(q.address).off == 0
    ensures m.Proper(q.address, c.BlockBytes(), 16)
  {
    SplitJoin(c, q.address);
    DivModUnique(q.address, c.BlockBytes(), c.Split(q.address).tag * c.numBlocks + c.Split(q.address).set_, 0);
  }

  lemma BlockReadIs(c: Table, m: Mem, q: Request)
    requires c.Valid() && Suits(c, m.bytes, q, true) && Wanted(c, q) == Some(q.address) && !(q.Store? && q.size == 8)
    requires c.Split(q.address).off == 0
    ensures var r := Present(c, m, q, false, true);
      var s := Read(m, q.address, c.BlockBytes());
      (r.Done? || r.Stall?) ==> r.mem == s.mem && (r.Stall? <==> !s.done) && (r.Stall? ==> r.code == 1)
  {
    var p := c.Split(q.address);
    var i := c.Victim(p.set_);
    EvictReadFills(c, m, q.address, p.set_, if q.Load? then p.set_ else i, p.tag, false);
  }

  /** Polling for a block in flight. */
  lemma BlockPollStep(c: Table, m: Mem, ph: Phase, q: Request, other: Option<Slot>) returns (own: Option<Slot>)
    requires MayAsk(c, m, ph, q, true, true, other) && ph.Filling?
    ensures Stepped(c, m, ph, q, other, Present(c, m, q, true, true), own)
  {
    PresentationAnswered(c, m, ph, q, true, true);
    BlockPollIs(c, m, q, ph.row);
    var s := Slot(q.address, c.BlockBytes(), ph.end, Reading);
    PollShared(m, s, other);
    own := Some(s.(op := if ph.end <= m.cycle then Completed else Reading));
  }

  lemma BlockPollIs(c: Table, m: Mem, q: Request, i: nat)
    requires c.Valid() && i < |c.rows| && Refillable(c, m, q, i)
    ensures var r := Present(c, m, q, true, true);
      var s := Status(m, q.address);
      (r.Done? || r.Stall?) ==> r.mem == s.mem && (r.Stall? <==> !s.done) && (r.Stall? ==> r.code == 1)
  {
    var p := c.Split(q.address);
    EvictReadFills(c, m, q.address, p.set_, if q.Load? then p.set_ else i, p.tag, true);
  }

  /** The first write of a dirty victim. */
  lemma WriteBackStep(c: Table, m: Mem, q: Request, other: Option<Slot>) returns (own: Option<Slot>)
    requires MayAsk(c, m, Idle, q, false, true, other) && q.Store? && q.size == 8 && Wanted(c, q).Some?
    ensures Stepped(c, m, Idle, q, other, Present(c, m, q, false, true), own)
  {
    var p := c.Split(q.address);
    var i := c.Victim(p.set_);
    MayAskIsLegal(c, m, Idle, q, false, true, other);
    PresentationAnswered(c, m, Idle, q, false, true);
    WriteBackIssued(c, m, p.set_);
    assert m.Proper(RowBase(c, i), 8, 8) by { DivModUnique(RowBase(c, i), 8, c.rows[i].tag * c.numBlocks + i, 0); }
    assert c.rows[i].data[..8] == c.rows[i].data;
    WriteShared(m, other, RowBase(c, i), c.rows[i].data);
    WriteBackIs(c, m, q);
    own := if m.writeLatency == 0 then None else Some(Slot(RowBase(c, i), 8, m.cycle + m.writeLatency, Writing));
  }

  lemma WriteBackIs(c: Table, m: Mem, q: Request)
    requires c.Valid() && Suits(c, m.bytes, q, true) && q.Store? && q.size == 8 && Wanted(c, q).Some?
    requires c.OldAddress(c.Victim(c.Split(q.address).set_)) == RowBase(c, c.Victim(c.Split(q.address).set_))
    ensures var i := c.Victim(c.Split(q.address).set_);
      var r := Present(c, m, q, false, true);
      var s := Write(m, RowBase(c, i), c.rows[i].data, 8);
      (r.Done? || r.Stall?) ==>
        r.mem == s.mem && (r.Stall? <==> !s.done) && (r.Stall? ==> r.code == 1 && r.cache == c)
  {
  }

  /** Polling for a write-back in flight. */
  lemma WriteBackPollStep(c: Table, m: Mem, ph: Phase, q: Request, other: Option<Slot>) returns (own: Option<Slot>)
    requires MayAsk(c, m, ph, q, true, true, other) && ph.WritingBack?
    ensures Stepped(c, m, ph, q, other, Present(c, m, q, true, true), own)
  {
    PresentationAnswered(c, m, ph, q, true, true);
    WayZeroWriteBackExact(c, ph.row);
    var s := Slot(RowBase(c, ph.row), 8, ph.end, Writing);
    PollShared(m, s, other);
    WriteBackPollIs(c, m, q, ph.row);
    own := Some(s.(op := if ph.end <= m.cycle then Completed else Writing));
  }

  lemma WriteBackPollIs(c: Table, m: Mem, q: Request, i: nat)
    requires c.Valid() && i < |c.rows| && Replaceable(c, m, q, i) && c.OldAddress(i) == RowBase(c, i)
    requires Status(m, RowBase(c, i)).fill == []
    ensures var r := Present(c, m, q, true, true);
      var s := Status(m, RowBase(c, i));
      (r.Done? || r.Stall?) ==>
        r.mem == s.mem && (r.Stall? <==> !s.done) && (r.Stall? ==> r.code == 1 && r.cache == c)
  {
  }

  lemma CacheStep(c: Table, m: Mem, ph: Phase, q: Request, followup: bool, available: bool, other: Option<Slot>)
    returns (own: Option<Slot>)
    requires MayAsk(c, m, ph, q, followup, available, other)
    ensures Stepped(c, m, ph, q, other, Present(c, m, q, followup, available), own)
  {
    match ph
    case Filling(_, _, _) => own := BlockPollStep(c, m, ph, q, other);
    case WritingBack(_, _, _) => own := WriteBackPollStep(c, m, ph, q, other);
    case Idle =>
      if !available || Wanted(c, q).None? {
        own := UntouchedStep(c, m, ph, q, followup, available, other);
      } else if q.Store? && q.size == 8 {
        own := WriteBackStep(c, m, q, other);
      } else {
        own := BlockReadStep(c, m, q, other);
      }
  }

  // ---------------------------------------------------------------- which rows hold what

  /** Row k names the block it named, and is dirty only if it was; or it was taken for the request's block. */
  predicate RowMoves(c: Table, d: Table, p: Place, store: bool, k: nat)
    requires c.Valid() && k < |c.rows| && k < |d.rows|
  {
    || (d.rows[k].tag == c.rows[k].tag && d.rows[k].valid == c.rows[k].valid && (d.rows[k].dirty ==> c.rows[k].dirty))
    || (d.rows[k].tag == p.tag && SetOf(c, k) == p.set_ && (d.rows[k].dirty ==> store))
  }

  ghost predicate RowsMove(c: Table, d: Table, p: Place, store: bool)
    requires c.Valid()
  {
    d.SameShape(c) && forall k :: 0 <= k < |c.rows| ==> RowMoves(c, d, p, store, k)
  }

  lemma WriteBackRows(c: Table, m: Mem, i: nat, p: Place, followup: bool)
    requires c.Valid() && i < |c.rows|
    ensures var r := WriteBack(c, m, i, followup); r.Cleaned? ==> RowsMove(c, r.cache, p, false)
  {
  }

  lemma FillRows(c: Table, d: Table, m: Mem, x: nat, i: nat, p: Place, followup: bool, owed: bool)
    requires c.Valid() && d.Valid() && RowsMove(c, d, p, false) && i < |c.rows| && SetOf(c, i) == p.set_
    ensures var r := Fill(d, m, x, i, p.tag, followup, owed);
      && (r.Waiting? ==> RowsMove(c, r.cache, p, false))
      && (r.Filled? ==> RowsMove(c, r.cache, p, false) && r.row == i && r.cache.rows[i].tag == p.tag)
  {
    var r := Fill(d, m, x, i, p.tag, followup, owed);
    if !r.Lost? {
      forall k | 0 <= k < |c.rows| ensures RowMoves(c, r.cache, p, false, k) {
        assert RowMoves(c, d, p, false, k);
      }
    }
  }

  lemma EvictReadRows(c: Table, m: Mem, x: nat, index: nat, p: Place, followup: bool)
    requires c.Valid() && index < |c.rows| && SetOf(c, index) == p.set_ && p.set_ < c.numBlocks
    ensures var r := EvictRead(c, m, x, index, p.tag, followup);
      && (r.Waiting? ==> RowsMove(c, r.cache, p, false))
      && (r.Filled? ==> RowsMove(c, r.cache, p, false) && SetOf(c, r.row) == p.set_ && r.cache.rows[r.row].tag == p.tag)
  {
    if !(c.kind == Data && index >= c.numBlocks && c.rows[index].valid) {
      var i := if c.kind == Data && index >= c.numBlocks then index else c.Victim(index);
      assert SetOf(c, i) == p.set_;
      WriteBackRows(c, m, i, p, followup);
      var wb := WriteBack(c, m, i, followup);
      if wb.Cleaned? {
        FillRows(c, wb.cache, wb.mem, x, i, p, followup, wb.owed);
      }
    }
  }

  lemma PutRows(c: Table, d: Table, m: Mem, i: nat, p: Place, data: Word, size: nat)
    requires c.Valid() && d.Valid() && RowsMove(c, d, p, false) && d.kind == Data && i < |c.rows|
    requires SetOf(c, i) == p.set_
    ensures var r := Put(d, m, i, p, data, size); r.Done? ==> RowsMove(c, r.cache, p, true)
  {
    var r := Put(d, m, i, p, data, size);
    if r.Done? {
      forall k | 0 <= k < |c.rows| ensures RowMoves(c, r.cache, p, true, k) {
        assert RowMoves(c, d, p, false, k);
      }
    }
  }

  lemma StoreRows(c: Table, m: Mem, q: Request, followup: bool, available: bool)
    requires c.Valid() && q.Store? && c.kind == Data
    requires c.Resident(c.Split(q.address).tag, c.Split(q.address).set_).None?
    ensures var r := Present(c, m, q, followup, available);
      r.Done? || r.Stall? ==> RowsMove(c, r.cache, c.Split(q.address), true)
  {
    var p := c.Split(q.address);
    var i := c.Victim(p.set_);
    if q.size == 8 {
      var wb := WriteBack(c, m, i, followup);
      WriteBackRows(c, m, i, p, followup);
      if wb.Cleaned? {
        PutRows(c, wb.cache, wb.mem, i, p, q.data, 8);
      }
    } else {
      EvictReadRows(c, m, q.address, i, p, followup);
      var e := EvictRead(c, m, q.address, i, p.tag, followup);
      if e.Filled? {
        PutRows(c, e.cache, e.mem, e.row, p, q.data, q.size);
      }
    }
  }

  lemma LoadRows(c: Table, m: Mem, q: Request, followup: bool, available: bool)
    requires c.Valid() && q.Load?
    ensures var r := Present(c, m, q, followup, available);
      r.Done? || r.Stall? ==> RowsMove(c, r.cache, c.Split(q.address), false)
  {
    var p := c.Split(q.address);
    EvictReadRows(c, m, q.address, p.set_, p, followup);
  }

  lemma StoreHitRows(c: Table, m: Mem, q: Request, followup: bool, available: bool)
    requires c.Valid() && q.Store? && c.kind == Data
    requires c.Resident(c.Split(q.address).tag, c.Split(q.address).set_).Some?
    ensures var r := Present(c, m, q, followup, available);
      r.Done? || r.Stall? ==> RowsMove(c, r.cache, c.Split(q.address), true)
  {
  }

  /** Whatever is asked, rows keep their blocks or are taken for the block asked for; only stores dirty them. */
  lemma PresentRows(c: Table, m: Mem, q: Request, followup: bool, available: bool)
    requires c.Valid() && (q.Store? ==> c.kind == Data)
    ensures var r := Present(c, m, q, followup, available);
      r.Done? || r.Stall? ==> RowsMove(c, r.cache, c.Split(q.address), q.Store?)
  {
    var p := c.Split(q.address);
    if q.Load? {
      LoadRows(c, m, q, followup, available);
    } else if c.Resident(p.tag, p.set_).None? {
      StoreRows(c, m, q, followup, available);
    } else {
      StoreHitRows(c, m, q, followup, available);
    }
  }
}
