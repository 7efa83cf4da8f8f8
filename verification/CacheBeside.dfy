/** A request answered at once while another one waits for memory in the same cache. */
module CacheBeside {
  import opened Words
  import opened Memory
  import opened Cache
  import opened CacheProofs
  import opened CacheRefinement
  import opened CacheSessions
  import SharedCache

  // ---------------------------------------------------------------- taking a row whole

  function Taken(c: Table, i: nat, tag: nat, data: seq<byte>): (d: Table)
    requires c.Valid() && i < |c.rows| && c.kind == Data && |data| == 8
    ensures d.Valid() && d.SameShape(c)
  {
    c.Set(i, Row(tag, data, true, true))
  }

  lemma TakenCovers(c: Table, hole: int, i: nat, tag: nat, data: seq<byte>, t: nat, s: nat)
    requires c.Valid() && Unique(c) && i < |c.rows| && i != hole && c.kind == Data && |data| == 8 && s < c.numBlocks
    requires c.Resident(tag, SetOf(c, i)).None?
    ensures var before := Covers(c, hole, t, s);
      Covers(Taken(c, i, tag, data), hole, t, s)
      == if t == tag && s == SetOf(c, i) then Some(i) else if before == Some(i) then None else before
    ensures t == tag && s == SetOf(c, i) ==> Covers(c, hole, t, s).None?
  {
    if Covers(c, hole, t, s) == Some(i) {
      assert forall j :: 0 <= j < |c.rows| && j != i && SetOf(c, j) == s ==> !c.Matches(j, t);
    }
  }

  lemma TakenByte(c: Table, bytes: seq<byte>, hole: int, i: nat, tag: nat, data: seq<byte>, a: nat)
    requires c.Valid() && Unique(c) && i < |c.rows| && i != hole && c.kind == Data && |data| == 8 && a < |bytes|
    requires c.Resident(tag, SetOf(c, i)).None? && (c.rows[i].valid ==> InSync(c, bytes, i))
    ensures var base := c.Base(tag, SetOf(c, i));
      AbsByte(Taken(c, i, tag, data), bytes, hole, a)
      == if base <= a < base + |data| then data[a - base] else AbsByte(c, bytes, hole, a)
  {
    var base := c.Base(tag, SetOf(c, i));
    var p := c.Split(a);
    TakenCovers(c, hole, i, tag, data, p.tag, p.set_);
    SplitUnique(c, tag, SetOf(c, i), 0);
    SameBlock(c, base, a, |data|);
    if Covers(c, hole, p.tag, p.set_) == Some(i) {
      SyncByte(c, bytes, i, a);
    }
  }

  lemma TakenUnique(c: Table, i: nat, tag: nat, data: seq<byte>)
    requires c.Valid() && Unique(c) && i < |c.rows| && c.kind == Data && |data| == 8
    requires c.Resident(tag, SetOf(c, i)).None?
    ensures Unique(Taken(c, i, tag, data))
  {
    assert forall j :: 0 <= j < |c.rows| && SetOf(c, j) == SetOf(c, i) ==> !c.Matches(j, tag);
  }

  lemma TakenInv(c: Table, bytes: seq<byte>, hole: int, i: nat, tag: nat, data: seq<byte>)
    requires Inv(c, bytes, hole) && i < |c.rows| && i != hole && c.kind == Data && |data| == 8
    requires c.Resident(tag, SetOf(c, i)).None? && c.Base(tag, SetOf(c, i)) + c.BlockBytes() <= |bytes|
    ensures Inv(Taken(c, i, tag, data), bytes, hole)
  {
    var d := Taken(c, i, tag, data);
    TakenUnique(c, i, tag, data);
    forall j | 0 <= j < |d.rows| ensures RowOk(d, bytes, hole, j) {
      assert RowOk(c, bytes, hole, j);
    }
  }

  /** A row in step with memory may be taken for a whole block, another row being filled or not. */
  lemma Take(c: Table, bytes: seq<byte>, hole: int, i: nat, tag: nat, data: seq<byte>)
    requires Inv(c, bytes, hole) && i < |c.rows| && i != hole && c.kind == Data && |data| == 8
    requires c.Resident(tag, SetOf(c, i)).None? && c.Base(tag, SetOf(c, i)) + c.BlockBytes() <= |bytes|
    requires c.rows[i].valid ==> InSync(c, bytes, i)
    ensures var d := Taken(c, i, tag, data);
      && Inv(d, bytes, hole)
      && Flat(d, bytes, hole) == Splice(Flat(c, bytes, hole), c.Base(tag, SetOf(c, i)), data)
  {
    TakenInv(c, bytes, hole, i, tag, data);
    var d := Taken(c, i, tag, data);
    var after := Splice(Flat(c, bytes, hole), c.Base(tag, SetOf(c, i)), data);
    forall a | 0 <= a < |bytes| ensures Flat(d, bytes, hole)[a] == after[a] {
      TakenByte(c, bytes, hole, i, tag, data, a);
    }
  }

  // ---------------------------------------------------------------- the request in progress

  /** The set a session waits in. */
  predicate Busy(c: Table, ph: Phase, s: nat)
    requires c.numBlocks > 0
  {
    ph != Idle && c.Split(ph.request.address).set_ == s
  }

  /** What the session waits for does not depend on the other sets, nor on the bytes of other rows. */
  lemma SessionKept(c: Table, d: Table, m: Mem, ph: Phase)
    requires SessionInv(c, m, ph) && Inv(d, m.bytes, Hole(ph)) && d.SameShape(c)
    requires forall k :: 0 <= k < |c.rows| && Busy(c, ph, SetOf(c, k)) ==>
        d.rows[k].(data := c.rows[k].data) == c.rows[k]
    requires ph != Idle ==> ph.row < |c.rows| && d.rows[ph.row] == c.rows[ph.row]
    ensures SessionInv(d, m, ph) && SharedCache.Claim(d, ph) == SharedCache.Claim(c, ph)
  {
    if ph != Idle {
      var s := c.Split(ph.request.address).set_;
      assert SetOf(c, s) == s && (c.kind == Data ==> SetOf(c, s + c.numBlocks) == s);
      assert d.Split(ph.request.address) == c.Split(ph.request.address);
    }
  }

  // ---------------------------------------------------------------- answered at once

  /** The request needs nothing from memory and leaves what the session waits for alone: a load that hits; a store
      that hits a dirty row of way 0, not the one being written back; or a store of a whole block into a clean row
      of another set. */
  ghost predicate AtOnce(c: Table, bytes: seq<byte>, ph: Phase, q: Request)
    requires c.Valid()
  {
    var p := c.Split(q.address);
    && Shapely(c, bytes, q) && c.kind == Data
    && match c.Resident(p.tag, p.set_)
       case Some(i) => q.Store? ==> i == p.set_ && c.rows[i].dirty && (ph != Idle ==> i != ph.row)
       case None => q.Store? && q.size == 8 && !c.rows[c.Victim(p.set_)].dirty && !Busy(c, ph, p.set_)
  }

  /** The session goes on, and the flat memory is as after the request. */
  ghost predicate AnsweredBeside(c: Table, m: Mem, ph: Phase, q: Request, r: Access)
    requires c.Valid()
  {
    && r.Done? && r.cache.Valid() && r.mem == m && SessionInv(r.cache, m, ph)
    && SharedCache.Claim(r.cache, ph) == SharedCache.Claim(c, ph)
    && var before := FlatOf(c, m, ph);
       && q.address + q.size <= |before| && q.size <= 8
       && FlatOf(r.cache, m, ph) == if q.Store? then Splice(before, q.address, q.data[..q.size]) else before
  }

  lemma LoadBeside(c: Table, m: Mem, ph: Phase, q: Request, followup: bool, available: bool)
    requires SessionInv(c, m, ph) && AtOnce(c, m.bytes, ph, q) && q.Load?
    ensures AnsweredBeside(c, m, ph, q, Present(c, m, q, followup, available))
  {
    SplitJoin(c, q.address);
  }

  lemma StoreHitBeside(c: Table, m: Mem, ph: Phase, q: Request, followup: bool, available: bool)
    requires SessionInv(c, m, ph) && AtOnce(c, m.bytes, ph, q) && q.Store?
    requires c.Resident(c.Split(q.address).tag, c.Split(q.address).set_).Some?
    ensures AnsweredBeside(c, m, ph, q, Present(c, m, q, followup, available))
  {
    var p := c.Split(q.address);
    var i := p.set_;
    assert RowOk(c, m.bytes, Hole(ph), i);
    assert Patched(c.rows[i], p.off, q.data, q.size).(dirty := true) == Patched(c.rows[i], p.off, q.data, q.size);
    Patch(c, m.bytes, Hole(ph), i, q.address, q.data, q.size);
    SessionKept(c, PatchedAt(c, i, p.off, q.data, q.size), m, ph);
  }

  lemma WholeStoreIs(c: Table, m: Mem, q: Request, followup: bool, available: bool)
    requires c.Valid() && c.kind == Data && q.Store? && q.size == 8 && c.Split(q.address).off == 0
    requires c.Resident(c.Split(q.address).tag, c.Split(q.address).set_).None?
    requires !c.rows[c.Victim(c.Split(q.address).set_)].dirty
    ensures var p := c.Split(q.address);
      var i := c.Victim(p.set_);
      SetOf(c, i) == p.set_ && q.data[..8] == q.data
      && Present(c, m, q, followup, available) == Done(Taken(c, i, p.tag, q.data), m, [])
  {
    var i := c.Victim(c.Split(q.address).set_);
    assert Splice(c.rows[i].data, 0, q.data[..8]) == q.data == q.data[..8];
  }

  lemma WholeStoreBeside(c: Table, m: Mem, ph: Phase, q: Request, followup: bool, available: bool)
    requires SessionInv(c, m, ph) && AtOnce(c, m.bytes, ph, q) && q.Store?
    requires c.Resident(c.Split(q.address).tag, c.Split(q.address).set_).None?
    ensures AnsweredBeside(c, m, ph, q, Present(c, m, q, followup, available))
  {
    var p := c.Split(q.address);
    var i := c.Victim(p.set_);
    SplitJoin(c, q.address);
    assert RowOk(c, m.bytes, Hole(ph), i);
    WholeStoreIs(c, m, q, followup, available);
    Take(c, m.bytes, Hole(ph), i, p.tag, q.data);
    SessionKept(c, Taken(c, i, p.tag, q.data), m, ph);
  }

  /** Such a request is answered as the flat memory would answer it, next to the session that goes on. */
  lemma Beside(c: Table, m: Mem, ph: Phase, q: Request, followup: bool, available: bool)
    requires SessionInv(c, m, ph) && AtOnce(c, m.bytes, ph, q)
    ensures AnsweredBeside(c, m, ph, q, Present(c, m, q, followup, available))
  {
    if q.Load? {
      LoadBeside(c, m, ph, q, followup, available);
    } else if c.Resident(c.Split(q.address).tag, c.Split(q.address).set_).Some? {
      StoreHitBeside(c, m, ph, q, followup, available);
    } else {
      WholeStoreBeside(c, m, ph, q, followup, available);
    }
  }
}
