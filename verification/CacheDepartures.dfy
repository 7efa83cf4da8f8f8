/** Where cache.c does not behave as a flat memory, and exactly when it still happens to. */
module CacheDepartures {
  import opened Words
  import opened Memory
  import opened Cache
  import opened CacheProofs
  import opened CacheRefinement
  import opened CacheSessions

  /** The row's bytes where the store goes are already the store's. */
  predicate Agrees(c: Table, i: nat, q: Request)
    requires c.Valid() && c.kind == Data && i < |c.rows| && q.Store? && q.size <= 8
    requires c.Split(q.address).off + q.size <= 8
  {
    var off := c.Split(q.address).off;
    c.rows[i].data[off..off + q.size] == q.data[..q.size]
  }

  lemma PatchAgreeing(row: Row, off: nat, data: Word, size: nat)
    requires |row.data| == 8 && off + size <= 8
    ensures row.data[off..off + size] == data[..size] <==> Patched(row, off, data, size) == row
  {
    var after := Patched(row, off, data, size).data;
    if row.data[off..off + size] == data[..size] {
      forall j | 0 <= j < 8 ensures after[j] == row.data[j] {
        if off <= j < off + size { assert row.data[off..off + size][j - off] == data[..size][j - off]; }
      }
    } else {
      var j :| 0 <= j < size && row.data[off..off + size][j] != data[..size][j];
      assert after[off + j] != row.data[off + j];
    }
  }

  /** A store that hits is answered as the flat memory would, and leaves rows that later evictions can
      rely on, exactly when it hits way 0 and the row is dirty already, or it changes no byte of either
      row it concerns: the row it hits, and the valid row of way 0 its bytes are copied into. */
  lemma StoreHitAnsweredIff(c: Table, m: Mem, q: Request, followup: bool, available: bool)
    requires SessionInv(c, m, Idle) && q.Store? && Shapely(c, m.bytes, q)
    requires c.Resident(c.Split(q.address).tag, c.Split(q.address).set_).Some?
    ensures var p := c.Split(q.address);
      var i := c.Resident(p.tag, p.set_).value;
      Answered(c, m, Idle, q, Present(c, m, q, followup, available), Idle)
      <==> (i == p.set_ && c.rows[i].dirty) || (Agrees(c, i, q) && (c.rows[p.set_].valid ==> Agrees(c, p.set_, q)))
  {
    var p := c.Split(q.address);
    var i := c.Resident(p.tag, p.set_).value;
    PatchAgreeing(c.rows[p.set_], p.off, q.data, q.size);
    if i == p.set_ && c.rows[i].dirty {
      StoreHits(c, m, q, followup, available);
    } else if i == p.set_ {
      CleanHitAnsweredIff(c, m, q, followup, available);
    } else {
      WayOneHitAnsweredIff(c, m, q, followup, available, i);
    }
  }

  /** When the store's bytes are there already, the flat memory does not change. */
  lemma AgreeingStoreIsNoop(c: Table, m: Mem, q: Request, i: nat)
    requires SessionInv(c, m, Idle) && q.Store? && Shapely(c, m.bytes, q) && i < |c.rows|
    requires c.Split(q.address).tag == c.rows[i].tag && c.rows[i].valid && c.Split(q.address).set_ == SetOf(c, i)
    ensures q.address + q.size <= |m.bytes|
    ensures Agrees(c, i, q) <==> Splice(FlatOf(c, m, Idle), q.address, q.data[..q.size]) == FlatOf(c, m, Idle)
  {
    HitReadsFlat(c, m.bytes, i, q.address, q.size);
    var flat, x, n := FlatOf(c, m, Idle), q.address, q.size;
    var after := Splice(flat, x, q.data[..n]);
    assert after[x..x + n] == q.data[..n];
    if Agrees(c, i, q) {
      forall a | 0 <= a < |flat| ensures after[a] == flat[a] {
        if x <= a < x + n { assert flat[x..x + n][a - x] == q.data[..n][a - x]; }
      }
    }
  }

  lemma HitInWayZeroIs(c: Table, m: Mem, q: Request, followup: bool, available: bool)
    requires SessionInv(c, m, Idle) && q.Store? && Shapely(c, m.bytes, q)
    requires c.Resident(c.Split(q.address).tag, c.Split(q.address).set_) == Some(c.Split(q.address).set_)
    ensures Present(c, m, q, followup, available) == Done(Landed(c, q), m, [])
  {
  }

  lemma UnchangedAnswered(c: Table, m: Mem, q: Request)
    requires SessionInv(c, m, Idle) && q.Store? && q.size <= 8 && q.address + q.size <= |m.bytes|
    requires Splice(FlatOf(c, m, Idle), q.address, q.data[..q.size]) == FlatOf(c, m, Idle)
    ensures Answered(c, m, Idle, q, Done(c, m, []), Idle)
  {
  }

  lemma OutOfSyncNotAnswered(c: Table, m: Mem, q: Request, i: nat)
    requires SessionInv(c, m, Idle) && q.Store? && Shapely(c, m.bytes, q) && i == c.Split(q.address).set_
    requires c.rows[i].valid && !c.rows[i].dirty && Landed(c, q).rows[i] != c.rows[i]
    ensures !Answered(c, m, Idle, q, Done(Landed(c, q), m, []), Idle)
  {
    assert RowOk(c, m.bytes, NO_HOLE, i);
    assert InSync(c, m.bytes, i) && !InSync(Landed(c, q), m.bytes, i);
    assert !RowOk(Landed(c, q), m.bytes, NO_HOLE, i);
  }

  /** Way 0, clean: the row is no longer what memory holds, and nothing marks it. */
  lemma CleanHitAnsweredIff(c: Table, m: Mem, q: Request, followup: bool, available: bool)
    requires SessionInv(c, m, Idle) && q.Store? && Shapely(c, m.bytes, q)
    requires c.Resident(c.Split(q.address).tag, c.Split(q.address).set_) == Some(c.Split(q.address).set_)
    requires !c.rows[c.Split(q.address).set_].dirty
    ensures Answered(c, m, Idle, q, Present(c, m, q, followup, available), Idle)
        <==> Agrees(c, c.Split(q.address).set_, q)
  {
    var p := c.Split(q.address);
    var i := p.set_;
    ResidentRow(c, p.tag, i, i);
    HitInWayZeroIs(c, m, q, followup, available);
    PatchAgreeing(c.rows[i], p.off, q.data, q.size);
    AgreeingStoreIsNoop(c, m, q, i);
    if Agrees(c, i, q) {
      assert Landed(c, q).rows == c.rows;
      UnchangedAnswered(c, m, q);
    } else {
      OutOfSyncNotAnswered(c, m, q, i);
    }
  }

  /** Rows of the same tags and valid bits cover the same blocks. */
  lemma PatchedByte(c: Table, bytes: seq<byte>, s: nat, row: Row, a: nat)
    requires c.Valid() && s < |c.rows| && |row.data| == |c.rows[s].data|
    requires row.tag == c.rows[s].tag && row.valid == c.rows[s].valid && row.dirty == c.rows[s].dirty && a < |bytes|
    ensures var d := c.Set(s, row);
      var p := c.Split(a);
      && d.Valid()
      && AbsByte(d, bytes, NO_HOLE, a) ==
           if Covers(c, NO_HOLE, p.tag, p.set_) == Some(s) then row.data[p.off] else AbsByte(c, bytes, NO_HOLE, a)
  {
  }

  /** What changing the bytes of row s does to the flat memory: nothing when the row is not valid. */
  lemma RowChangeShows(c: Table, bytes: seq<byte>, s: nat, row: Row)
    requires Inv(c, bytes, NO_HOLE) && s < |c.rows| && |row.data| == |c.rows[s].data|
    requires row.tag == c.rows[s].tag && row.valid == c.rows[s].valid && row.dirty == c.rows[s].dirty
    ensures c.Set(s, row).Valid()
    ensures Flat(c.Set(s, row), bytes, NO_HOLE) == Flat(c, bytes, NO_HOLE) <==> !row.valid || row == c.rows[s]
  {
    var d := c.Set(s, row);
    if row == c.rows[s] {
      assert d.rows == c.rows;
    } else if !row.valid {
      forall a | 0 <= a < |bytes| ensures AbsByte(d, bytes, NO_HOLE, a) == AbsByte(c, bytes, NO_HOLE, a) {
        PatchedByte(c, bytes, s, row, a);
      }
      FlatEqual(d, bytes, NO_HOLE, c, bytes, NO_HOLE);
    } else {
      var j :| 0 <= j < |row.data| && row.data[j] != c.rows[s].data[j];
      assert RowOk(c, bytes, NO_HOLE, s);
      var a := RowBase(c, s) + j;
      SplitUnique(c, row.tag, SetOf(c, s), j);
      CoveredBy(c, bytes, NO_HOLE, s, a);
      PatchedByte(c, bytes, s, row, a);
      assert Flat(d, bytes, NO_HOLE)[a] != Flat(c, bytes, NO_HOLE)[a];
    }
  }

  /** The block that was hit in row i is seen unchanged when another row's bytes change. */
  lemma OtherRowHidden(c: Table, bytes: seq<byte>, s: nat, row: Row, i: nat, x: nat, size: nat)
    requires Inv(c, bytes, NO_HOLE) && s < |c.rows| && |row.data| == |c.rows[s].data| && i < |c.rows| && i != s
    requires row.tag == c.rows[s].tag && row.valid == c.rows[s].valid && row.dirty == c.rows[s].dirty
    requires c.rows[i].valid && c.Split(x).tag == c.rows[i].tag && c.Split(x).set_ == SetOf(c, i)
    requires c.Split(x).off + size <= c.BlockBytes() && x + size <= |bytes|
    ensures c.Set(s, row).Valid()
    ensures Flat(c.Set(s, row), bytes, NO_HOLE)[x..x + size] == Flat(c, bytes, NO_HOLE)[x..x + size]
  {
    var got, want := Flat(c.Set(s, row), bytes, NO_HOLE)[x..x + size], Flat(c, bytes, NO_HOLE)[x..x + size];
    forall j | 0 <= j < size ensures got[j] == want[j] {
      SameBlock(c, x, x + j, size);
      CoveredBy(c, bytes, NO_HOLE, i, x + j);
      PatchedByte(c, bytes, s, row, x + j);
    }
  }

  /** A store that hits way 1, and the row its bytes land in instead. */
  ghost predicate WayOneStore(c: Table, m: Mem, q: Request, i: nat) {
    && SessionInv(c, m, Idle) && q.Store? && Shapely(c, m.bytes, q)
    && c.Resident(c.Split(q.address).tag, c.Split(q.address).set_) == Some(i) && i != c.Split(q.address).set_
  }

  function Landed(c: Table, q: Request): Table
    requires c.Valid() && c.kind == Data && q.Store? && c.Split(q.address).off + q.size <= 8
  {
    c.Set(c.Split(q.address).set_, Patched(c.rows[c.Split(q.address).set_], c.Split(q.address).off, q.data, q.size))
  }

  lemma WayOneStoreIs(c: Table, m: Mem, q: Request, followup: bool, available: bool, i: nat)
    requires WayOneStore(c, m, q, i)
    ensures Present(c, m, q, followup, available) == Done(Landed(c, q), m, [])
  {
  }

  lemma WayOneAnswered(c: Table, m: Mem, q: Request, i: nat)
    requires WayOneStore(c, m, q, i) && Agrees(c, i, q)
    requires c.rows[c.Split(q.address).set_].valid ==> Agrees(c, c.Split(q.address).set_, q)
    ensures Answered(c, m, Idle, q, Done(Landed(c, q), m, []), Idle)
  {
    var p := c.Split(q.address);
    var row := Patched(c.rows[p.set_], p.off, q.data, q.size);
    PatchAgreeing(c.rows[p.set_], p.off, q.data, q.size);
    AgreeingStoreIsNoop(c, m, q, i);
    RowChangeShows(c, m.bytes, p.set_, row);
    WayOneInv(c, m.bytes, p.set_, row);
  }

  lemma OtherBytesNotAnswered(c: Table, m: Mem, q: Request, d: Table)
    requires c.Valid() && d.Valid() && q.Store? && q.size <= 8 && q.address + q.size <= |m.bytes|
    requires Flat(d, m.bytes, NO_HOLE) != Splice(FlatOf(c, m, Idle), q.address, q.data[..q.size])
    ensures !Answered(c, m, Idle, q, Done(d, m, []), Idle)
  {
  }

  lemma ResidentRow(c: Table, tag: nat, s: nat, i: nat)
    requires c.Valid() && s < c.numBlocks && c.Resident(tag, s) == Some(i)
    ensures i < |c.rows| && c.rows[i].valid && c.rows[i].tag == tag && SetOf(c, i) == s
  {
  }

  /** The bytes the store should change are seen as before, because another row took them. */
  lemma LandedHidesStore(c: Table, m: Mem, q: Request, i: nat)
    requires WayOneStore(c, m, q, i)
    ensures Landed(c, q).Valid() && q.address + q.size <= |m.bytes|
    ensures Splice(FlatOf(c, m, Idle), q.address, q.data[..q.size]) != FlatOf(c, m, Idle) ==>
      Flat(Landed(c, q), m.bytes, NO_HOLE) != Splice(FlatOf(c, m, Idle), q.address, q.data[..q.size])
  {
    LandedKeepsBytes(c, m, q, i);
    HiddenStoreShows(Flat(c, m.bytes, NO_HOLE), Flat(Landed(c, q), m.bytes, NO_HOLE), q.address, q.data[..q.size],
        q.size);
  }

  lemma LandedKeepsBytes(c: Table, m: Mem, q: Request, i: nat)
    requires WayOneStore(c, m, q, i)
    ensures Landed(c, q).Valid() && q.address + q.size <= |m.bytes|
    ensures Flat(Landed(c, q), m.bytes, NO_HOLE)[q.address..q.address + q.size]
      == Flat(c, m.bytes, NO_HOLE)[q.address..q.address + q.size]
  {
    var p := c.Split(q.address);
    ResidentRow(c, p.tag, p.set_, i);
    HitReadsFlat(c, m.bytes, i, q.address, q.size);
    OtherRowHidden(c, m.bytes, p.set_, Patched(c.rows[p.set_], p.off, q.data, q.size), i, q.address, q.size);
  }

  lemma HiddenStoreShows(flat: seq<byte>, flat': seq<byte>, x: nat, data: seq<byte>, n: nat)
    requires |data| == n && x + n <= |flat| == |flat'| && flat'[x..x + n] == flat[x..x + n]
    ensures Splice(flat, x, data) != flat ==> flat' != Splice(flat, x, data)
  {
    if Splice(flat, x, data) != flat {
      SpliceShows(flat, flat', x, data, n);
    }
  }

  lemma WayOneMissesHitRow(c: Table, m: Mem, q: Request, i: nat)
    requires WayOneStore(c, m, q, i) && !Agrees(c, i, q)
    ensures !Answered(c, m, Idle, q, Done(Landed(c, q), m, []), Idle)
  {
    var p := c.Split(q.address);
    ResidentRow(c, p.tag, p.set_, i);
    AgreeingStoreIsNoop(c, m, q, i);
    LandedHidesStore(c, m, q, i);
    OtherBytesNotAnswered(c, m, q, Landed(c, q));
  }

  lemma WayOneSpoilsWayZero(c: Table, m: Mem, q: Request, i: nat)
    requires WayOneStore(c, m, q, i) && Agrees(c, i, q)
    requires c.rows[c.Split(q.address).set_].valid && !Agrees(c, c.Split(q.address).set_, q)
    ensures !Answered(c, m, Idle, q, Done(Landed(c, q), m, []), Idle)
  {
    var p := c.Split(q.address);
    PatchAgreeing(c.rows[p.set_], p.off, q.data, q.size);
    AgreeingStoreIsNoop(c, m, q, i);
    RowChangeShows(c, m.bytes, p.set_, Patched(c.rows[p.set_], p.off, q.data, q.size));
  }

  /** Way 1: the row that was hit is not written, and another row is. */
  lemma WayOneHitAnsweredIff(c: Table, m: Mem, q: Request, followup: bool, available: bool, i: nat)
    requires WayOneStore(c, m, q, i)
    ensures var s := c.Split(q.address).set_;
      Answered(c, m, Idle, q, Present(c, m, q, followup, available), Idle)
      <==> Agrees(c, i, q) && (c.rows[s].valid ==> Agrees(c, s, q))
  {
    WayOneStoreIs(c, m, q, followup, available, i);
    var s := c.Split(q.address).set_;
    if !Agrees(c, i, q) {
      WayOneMissesHitRow(c, m, q, i);
    } else if c.rows[s].valid && !Agrees(c, s, q) {
      WayOneSpoilsWayZero(c, m, q, i);
    } else {
      WayOneAnswered(c, m, q, i);
    }
  }

  lemma WayOneInv(c: Table, bytes: seq<byte>, s: nat, row: Row)
    requires Inv(c, bytes, NO_HOLE) && s < |c.rows| && |row.data| == |c.rows[s].data|
    requires row.tag == c.rows[s].tag && row.valid == c.rows[s].valid && row.dirty == c.rows[s].dirty
    requires !row.valid || row == c.rows[s]
    ensures Inv(c.Set(s, row), bytes, NO_HOLE)
  {
    forall j | 0 <= j < |c.rows| ensures RowOk(c.Set(s, row), bytes, NO_HOLE, j) {
      assert RowOk(c, bytes, NO_HOLE, j);
    }
  }

  /** A memory whose bytes at x did not change is not the one a differing store leaves. */
  lemma SpliceShows(flat: seq<byte>, flat': seq<byte>, x: nat, data: seq<byte>, n: nat)
    requires |data| == n && x + n <= |flat| == |flat'| && flat'[x..x + n] == flat[x..x + n]
    requires Splice(flat, x, data) != flat
    ensures flat' != Splice(flat, x, data)
  {
    var a :| 0 <= a < |flat| && Splice(flat, x, data)[a] != flat[a];
    assert flat'[a] == flat'[x..x + n][a - x] && flat[a] == flat[x..x + n][a - x];
  }

  // ---------------------------------------------------------------- misses

  /** A row that claims a block it does not hold breaks the invariant. */
  lemma WrongRowBreaks(c: Table, bytes: seq<byte>, i: nat, tag: nat, data: seq<byte>)
    requires c.Valid() && i < |c.rows| && |data| == c.BlockBytes()
    requires c.Base(tag, SetOf(c, i)) + c.BlockBytes() <= |bytes|
    requires var base := c.Base(tag, SetOf(c, i)); data != bytes[base..base + c.BlockBytes()]
    ensures !Inv(c.Set(i, Row(tag, data, false, true)), bytes, NO_HOLE)
  {
    var d := c.Set(i, Row(tag, data, false, true));
    if d.Valid() {
      assert !RowOk(d, bytes, NO_HOLE, i);
    }
  }

  /** A request that must read its block: a load, or a store of part of it, of a block not in the cache. */
  ghost predicate MustFill(c: Table, m: Mem, q: Request) {
    && SessionInv(c, m, Idle) && Shapely(c, m.bytes, q) && (q.Store? ==> q.size < 8)
    && c.Resident(c.Split(q.address).tag, c.Split(q.address).set_).None?
  }

  /** What the row holds after memory refused to read the block: for an address inside it the old bytes with
      the first one cleared, at its base zeros. */
  function Served(old_: seq<byte>, off: nat): (r: seq<byte>)
    requires |old_| > 0
    ensures |r| == |old_|
  {
    if off == 0 then Zeros(|old_|) else [0] + old_[1..]
  }

  /** The block asked for. */
  function BlockOf(c: Table, bytes: seq<byte>, q: Request): seq<byte>
    requires c.numBlocks > 0 && Shapely(c, bytes, q)
  {
    var p := c.Split(q.address);
    bytes[c.Base(p.tag, p.set_)..c.Base(p.tag, p.set_) + c.BlockBytes()]
  }

  /** What the row should hold after the request: the block, with the store's bytes in it. */
  function After(c: Table, q: Request, block: seq<byte>): seq<byte>
    requires c.numBlocks > 0 && q.size <= 8 && (q.Store? ==> c.Split(q.address).off + q.size <= |block|)
  {
    if q.Load? then block else Splice(block, c.Split(q.address).off, q.data[..q.size])
  }

  /** The row the request leaves behind, filled with `data`. */
  function RowAfter(c: Table, q: Request, data: seq<byte>): Row
    requires c.numBlocks > 0 && q.size <= 8 && (q.Store? ==> c.Split(q.address).off + q.size <= |data|)
  {
    Row(c.Split(q.address).tag, After(c, q, data), q.Store?, true)
  }

  function BytesAfter(c: Table, q: Request, data: seq<byte>): seq<byte>
    requires c.numBlocks > 0 && c.Split(q.address).off + q.size <= |data|
  {
    if q.Load? then data[c.Split(q.address).off..c.Split(q.address).off + q.size] else []
  }

  /** A load served from `data` in row i is right exactly when `data` is the block. */
  lemma LoadedRowIff(c: Table, m: Mem, q: Request, i: nat, data: seq<byte>)
    requires SessionInv(c, m, Idle) && q.Load? && Shapely(c, m.bytes, q) && i < |c.rows|
    requires (c.rows[i].valid ==> InSync(c, m.bytes, i)) && |data| == c.BlockBytes()
    requires c.Split(q.address).set_ == SetOf(c, i) && c.Resident(c.Split(q.address).tag, SetOf(c, i)).None?
    ensures Answered(c, m, Idle, q, Done(c.Set(i, RowAfter(c, q, data)), m, BytesAfter(c, q, data)), Idle)
      <==> data == BlockOf(c, m.bytes, q)
  {
    if data == BlockOf(c, m.bytes, q) {
      LoadedRowRight(c, m.bytes, q, i);
    } else {
      WrongRowBreaks(c, m.bytes, i, c.Split(q.address).tag, data);
    }
  }

  lemma LoadedRowRight(c: Table, bytes: seq<byte>, q: Request, i: nat)
    requires Inv(c, bytes, NO_HOLE) && q.Load? && Shapely(c, bytes, q) && i < |c.rows|
    requires (c.rows[i].valid ==> InSync(c, bytes, i))
    requires c.Split(q.address).set_ == SetOf(c, i) && c.Resident(c.Split(q.address).tag, SetOf(c, i)).None?
    ensures var data := BlockOf(c, bytes, q);
      var d := c.Set(i, RowAfter(c, q, data));
      && Inv(d, bytes, NO_HOLE) && Flat(d, bytes, NO_HOLE) == Flat(c, bytes, NO_HOLE) && q.address + q.size <= |bytes|
      && BytesAfter(c, q, data) == Flat(c, bytes, NO_HOLE)[q.address..q.address + q.size]
  {
    var p := c.Split(q.address);
    var e := Dropped(c, i, c.rows[i].data);
    Drop(c, bytes, i, c.rows[i].data);
    assert e.Split(q.address) == p;
    LoadedAnswers(e, bytes, i, q);
    assert c.Set(i, RowAfter(c, q, BlockOf(c, bytes, q))).rows == Loaded(e, bytes, i, p.tag).rows;
  }

  lemma StoredRowRight(c: Table, bytes: seq<byte>, q: Request, i: nat, data: seq<byte>)
    requires Inv(c, bytes, NO_HOLE) && c.kind == Data && q.Store? && Shapely(c, bytes, q) && i < |c.rows|
    requires (c.rows[i].valid ==> InSync(c, bytes, i)) && |data| == 8
    requires c.Split(q.address).set_ == SetOf(c, i) && c.Resident(c.Split(q.address).tag, SetOf(c, i)).None?
    requires After(c, q, data) == After(c, q, BlockOf(c, bytes, q))
    ensures q.address + q.size <= |bytes|
    ensures var d := c.Set(i, RowAfter(c, q, data));
      Inv(d, bytes, NO_HOLE) && Flat(d, bytes, NO_HOLE) == Splice(Flat(c, bytes, NO_HOLE), q.address, q.data[..q.size])
  {
    var p := c.Split(q.address);
    var e := Dropped(c, i, c.rows[i].data);
    Drop(c, bytes, i, c.rows[i].data);
    assert e.Split(q.address) == p;
    LoadedTakesStore(e, bytes, i, q);
    assert c.Set(i, RowAfter(c, q, data)).rows == PatchedAt(Loaded(e, bytes, i, p.tag), i, p.off, q.data, q.size).rows;
  }

  /** A byte outside the store that is not memory's shows. */
  lemma StoredRowWrong(c: Table, bytes: seq<byte>, q: Request, i: nat, data: seq<byte>)
    requires Inv(c, bytes, NO_HOLE) && c.kind == Data && q.Store? && Shapely(c, bytes, q) && i < |c.rows| && |data| == 8
    requires c.Split(q.address).set_ == SetOf(c, i) && c.Resident(c.Split(q.address).tag, SetOf(c, i)).None?
    requires q.address + q.size <= |bytes| && After(c, q, data) != After(c, q, BlockOf(c, bytes, q))
    requires Inv(c.Set(i, RowAfter(c, q, data)), bytes, NO_HOLE)
    ensures Flat(c.Set(i, RowAfter(c, q, data)), bytes, NO_HOLE)
        != Splice(Flat(c, bytes, NO_HOLE), q.address, q.data[..q.size])
  {
    var p := c.Split(q.address);
    var d := c.Set(i, RowAfter(c, q, data));
    var got, want := After(c, q, data), After(c, q, BlockOf(c, bytes, q));
    var j :| 0 <= j < 8 && got[j] != want[j];
    var a := c.Base(p.tag, p.set_) + j;
    MissingByte(c, bytes, q, j);
    RowByte(c, d, bytes, q, i, data, j);
    SplitJoin(c, q.address);
    assert !(q.address <= a < q.address + q.size);
    assert Splice(Flat(c, bytes, NO_HOLE), q.address, q.data[..q.size])[a] == want[j];
  }

  /** A byte of a block that is not in the cache is memory's. */
  lemma MissingByte(c: Table, bytes: seq<byte>, q: Request, j: nat)
    requires Inv(c, bytes, NO_HOLE) && Shapely(c, bytes, q) && j < c.BlockBytes()
    requires c.Resident(c.Split(q.address).tag, c.Split(q.address).set_).None?
    ensures var a := c.Base(c.Split(q.address).tag, c.Split(q.address).set_) + j;
      a < |bytes| && Flat(c, bytes, NO_HOLE)[a] == bytes[a] == BlockOf(c, bytes, q)[j]
  {
    var p := c.Split(q.address);
    SplitUnique(c, p.tag, p.set_, j);
    assert AbsByte(c, bytes, NO_HOLE, c.Base(p.tag, p.set_) + j) == bytes[c.Base(p.tag, p.set_) + j];
  }

  /** A byte of the block in row i is the row's. */
  lemma RowByte(c: Table, d: Table, bytes: seq<byte>, q: Request, i: nat, data: seq<byte>, j: nat)
    requires c.Valid() && c.kind == Data && q.Store? && Shapely(c, bytes, q) && i < |c.rows| && |data| == 8 && j < 8
    requires c.Split(q.address).set_ == SetOf(c, i) && d == c.Set(i, RowAfter(c, q, data)) && Inv(d, bytes, NO_HOLE)
    ensures var a := c.Base(c.Split(q.address).tag, c.Split(q.address).set_) + j;
      a < |bytes| && Flat(d, bytes, NO_HOLE)[a] == After(c, q, data)[j]
  {
    var p := c.Split(q.address);
    var a := c.Base(p.tag, p.set_) + j;
    SplitUnique(c, p.tag, p.set_, j);
    assert d.Split(a) == c.Split(a);
    CoveredBy(d, bytes, NO_HOLE, i, a);
  }

  /** A store put into `data` in row i is right exactly when the bytes around it are the block's. */
  lemma StoredRowIff(c: Table, m: Mem, q: Request, i: nat, data: seq<byte>)
    requires SessionInv(c, m, Idle) && c.kind == Data && q.Store? && Shapely(c, m.bytes, q) && i < |c.rows|
    requires (c.rows[i].valid ==> InSync(c, m.bytes, i)) && |data| == 8
    requires c.Split(q.address).set_ == SetOf(c, i) && c.Resident(c.Split(q.address).tag, SetOf(c, i)).None?
    ensures Answered(c, m, Idle, q, Done(c.Set(i, RowAfter(c, q, data)), m, []), Idle)
      <==> After(c, q, data) == After(c, q, BlockOf(c, m.bytes, q))
  {
    if After(c, q, data) == After(c, q, BlockOf(c, m.bytes, q)) {
      StoredRowRight(c, m.bytes, q, i, data);
    } else if Answered(c, m, Idle, q, Done(c.Set(i, RowAfter(c, q, data)), m, []), Idle) {
      StoredRowWrong(c, m.bytes, q, i, data);
    }
  }

  lemma FilledRowIff(c: Table, m: Mem, q: Request, i: nat, data: seq<byte>)
    requires MustFill(c, m, q) && i < |c.rows| && (c.rows[i].valid ==> InSync(c, m.bytes, i))
    requires |data| == c.BlockBytes() && c.Split(q.address).set_ == SetOf(c, i)
    ensures Answered(c, m, Idle, q, Done(c.Set(i, RowAfter(c, q, data)), m, BytesAfter(c, q, data)), Idle)
      <==> After(c, q, data) == After(c, q, BlockOf(c, m.bytes, q))
  {
    if q.Load? {
      LoadedRowIff(c, m, q, i, data);
    } else {
      StoredRowIff(c, m, q, i, data);
    }
  }

  /** The victim chosen is a valid row of way 1. */
  predicate ClaimsWayOne(c: Table, q: Request)
    requires c.Valid()
  {
    var i := c.Victim(c.Split(q.address).set_);
    i >= c.numBlocks && c.rows[i].valid
  }

  /** A request that misses away from its block's base is refused by memory and served from the victim's own
      bytes, the first of them cleared: right exactly when those, but for what a store overwrites, happen to
      be the block, and a store does not choose its way a second time from way 1. */
  lemma UnalignedMissAnsweredIff(c: Table, m: Mem, q: Request)
    requires MustFill(c, m, q) && c.Split(q.address).off != 0 && !c.rows[c.Victim(c.Split(q.address).set_)].dirty
    ensures var old_ := c.rows[c.Victim(c.Split(q.address).set_)].data;
      Answered(c, m, Idle, q, Present(c, m, q, false, true), Idle)
      <==> !(q.Store? && ClaimsWayOne(c, q)) && After(c, q, [0] + old_[1..]) == After(c, q, BlockOf(c, m.bytes, q))
  {
    var i := c.Victim(c.Split(q.address).set_);
    UnalignedMissIs(c, m, q);
    CleanRowInSync(c, m.bytes, NO_HOLE, i);
    FilledRowIff(c, m, q, i, [0] + c.rows[i].data[1..]);
  }

  lemma UnalignedMissIs(c: Table, m: Mem, q: Request)
    requires MustFill(c, m, q) && c.Split(q.address).off != 0 && !c.rows[c.Victim(c.Split(q.address).set_)].dirty
    ensures var i := c.Victim(c.Split(q.address).set_);
      var data := [0] + c.rows[i].data[1..];
      && SetOf(c, i) == c.Split(q.address).set_
      && Present(c, m, q, false, true) ==
        if q.Store? && ClaimsWayOne(c, q) then Wild
        else Done(c.Set(i, RowAfter(c, q, data)), m, BytesAfter(c, q, data))
  {
    var p := c.Split(q.address);
    var i := c.Victim(p.set_);
    assert !m.Proper(q.address, c.BlockBytes(), 16);
    if q.Load? {
      EvictReadFills(c, m, q.address, p.set_, p.set_, p.tag, false);
    } else if !ClaimsWayOne(c, q) {
      EvictReadFills(c, m, q.address, p.set_, i, p.tag, false);
      var data: seq<byte> := [0] + c.rows[i].data[1..];
      var filled := c.Set(i, Row(p.tag, data, false, true));
      assert Put(filled, m, i, p, q.data, q.size).cache.rows == c.Set(i, RowAfter(c, q, data)).rows;
    }
  }

  /** A partial store that misses leaves the row array exactly when its victim is a valid row of way 1:
      the way is then chosen a second time, from there. */
  lemma PartStoreWildIff(c: Table, m: Mem, q: Request)
    requires c.Valid() && c.kind == Data && q.Store? && q.size < 8 && c.Split(q.address).off + q.size <= 8
    requires c.Resident(c.Split(q.address).tag, c.Split(q.address).set_).None?
    ensures Present(c, m, q, false, true).Wild? <==> ClaimsWayOne(c, q)
  {
  }

  /** At its block's base, with a clean victim, such a store is answered exactly when it does not leave the array. */
  lemma AlignedPartStoreAnsweredIff(c: Table, m: Mem, q: Request)
    requires MustFill(c, m, q) && q.Store? && c.Split(q.address).off == 0
    requires !c.rows[c.Victim(c.Split(q.address).set_)].dirty && m.stage in {Fetch, Access} && CanIssue(m, q.address)
    ensures var r := Present(c, m, q, false, true);
      Answered(c, m, Idle, q, r, NextPhase(c, m, Idle, q, r)) <==> !ClaimsWayOne(c, q)
  {
    if ClaimsWayOne(c, q) {
      PartStoreWildIff(c, m, q);
    } else {
      PartStoreMisses(c, m, q);
    }
  }

  /** A miss with a dirty victim, where both memory accesses would be allowed on their own. */
  ghost predicate DirtyVictim(c: Table, m: Mem, q: Request) {
    && MustFill(c, m, q) && c.kind == Data
    && var i := c.Victim(c.Split(q.address).set_);
       c.rows[i].dirty && m.stage == Access && CanIssue(m, RowBase(c, i))
  }

  /** With the stage's access spent on the write-back, the block read is refused at once. */
  lemma RefusedFill(c: Table, m: Mem, x: nat, i: nat, tag: nat, owed: bool, off: nat)
    requires c.Valid() && c.kind == Data && i < |c.rows| && m.stage == Access && Access in m.issued
    requires off == 0 <==> m.Proper(x, 8, 16)
    ensures Fill(c, m, x, i, tag, false, owed) ==
      if owed then Waiting(c.Set(i, c.rows[i].(data := Served(c.rows[i].data, off))), m)
      else Filled(c.Set(i, Row(tag, Served(c.rows[i].data, off), false, true)), m, i)
  {
    assert Read(m, x, 8) == Response(m, true, if off == 0 then Zeros(8) else [0]);
  }

  lemma DirtyWriteBackIs(c: Table, m: Mem, s: nat)
    requires m.Valid() && Inv(c, m.bytes, NO_HOLE) && c.kind == Data && s < c.numBlocks
    requires c.rows[c.Victim(s)].dirty && m.stage == Access && CanIssue(m, RowBase(c, c.Victim(s)))
    ensures var i := c.Victim(s);
      var r := Write(m, RowBase(c, i), c.rows[i].data, 8);
      && i == s && c.rows[i].valid && c.Victim(i) == i
      && WriteBack(c, m, i, false) == Cleaned(
           if m.writeLatency == 0 then c.Set(i, c.rows[i].(dirty := false)) else c, r.mem, m.writeLatency > 0)
      && r.mem.stage == Access && Access in r.mem.issued && r.mem.Valid() && |r.mem.bytes| == |m.bytes|
      && RowBase(c, i) + 8 <= |m.bytes| && r.mem.bytes == Splice(m.bytes, RowBase(c, i), c.rows[i].data)
  {
    WriteBackIssued(c, m, s);
  }

  lemma DirtyVictimIs(c: Table, m: Mem, q: Request)
    requires DirtyVictim(c, m, q)
    ensures var i := c.Victim(c.Split(q.address).set_);
      var m1 := Write(m, RowBase(c, i), c.rows[i].data, 8).mem;
      var data := Served(c.rows[i].data, c.Split(q.address).off);
      Present(c, m, q, false, true) ==
        if m.writeLatency == 0 then Done(c.Set(i, RowAfter(c, q, data)), m1, BytesAfter(c, q, data))
        else Stall(c.Set(i, c.rows[i].(data := data)), m1, 1)
  {
    var p := c.Split(q.address);
    var i := c.Victim(p.set_);
    var data := Served(c.rows[i].data, p.off);
    DirtyVictimFills(c, m, q);
    if q.Store? && m.writeLatency == 0 {
      var m1 := Write(m, RowBase(c, i), c.rows[i].data, 8).mem;
      assert Put(c.Set(i, Row(p.tag, data, false, true)), m1, i, p, q.data, q.size).cache.rows
          == c.Set(i, RowAfter(c, q, data)).rows;
    }
  }

  lemma DirtyVictimFills(c: Table, m: Mem, q: Request)
    requires DirtyVictim(c, m, q)
    ensures var p := c.Split(q.address);
      var i := c.Victim(p.set_);
      var m1 := Write(m, RowBase(c, i), c.rows[i].data, 8).mem;
      var data := Served(c.rows[i].data, p.off);
      && i == p.set_
      && EvictRead(c, m, q.address, i, p.tag, false) ==
           if m.writeLatency == 0 then Filled(c.Set(i, Row(p.tag, data, false, true)), m1, i)
           else Waiting(c.Set(i, c.rows[i].(data := data)), m1)
  {
    var p := c.Split(q.address);
    var i := c.Victim(p.set_);
    DirtyWriteBackIs(c, m, p.set_);
    var wb := WriteBack(c, m, i, false);
    BaseIsProper(c, wb.mem, q);
    RefusedFill(wb.cache, wb.mem, q.address, i, p.tag, wb.owed, p.off);
    assert EvictRead(c, m, q.address, i, p.tag, false) == Fill(wb.cache, wb.mem, q.address, i, p.tag, false, wb.owed);
    var data := Served(c.rows[i].data, p.off);
    assert wb.cache.Set(i, Row(p.tag, data, false, true)).rows == c.Set(i, Row(p.tag, data, false, true)).rows;
  }

  lemma BaseIsProper(c: Table, m: Mem, q: Request)
    requires c.Valid() && c.kind == Data && Shapely(c, m.bytes, q)
    ensures c.Split(q.address).off == 0 <==> m.Proper(q.address, 8, 16)
  {
    SplitJoin(c, q.address);
    if c.Split(q.address).off == 0 {
      DivModUnique(q.address, 8, c.Split(q.address).tag * c.numBlocks + c.Split(q.address).set_, 0);
    }
  }

  lemma AnsweredFromSameFlat(c: Table, m: Mem, m1: Mem, q: Request, r: Access)
    requires c.Valid() && FlatOf(c, m, Idle) == FlatOf(c, m1, Idle)
    ensures Answered(c, m, Idle, q, r, Idle) <==> Answered(c, m1, Idle, q, r, Idle)
  {
  }

  /** With writes that take no time, the request is served from the cleared row. */
  lemma DirtyVictimAtOnceIff(c: Table, m: Mem, q: Request)
    requires DirtyVictim(c, m, q) && m.writeLatency == 0
    ensures var data := Served(c.rows[c.Victim(c.Split(q.address).set_)].data, c.Split(q.address).off);
      Answered(c, m, Idle, q, Present(c, m, q, false, true), Idle)
      <==> After(c, q, data) == After(c, q, BlockOf(c, m.bytes, q))
  {
    var p := c.Split(q.address);
    var i := c.Victim(p.set_);
    DirtyWriteBackIs(c, m, p.set_);
    WrittenBack(c, m.bytes, i);
    DirtyVictimIs(c, m, q);
    var m1 := Write(m, RowBase(c, i), c.rows[i].data, 8).mem;
    VictimBlockApart(c, m.bytes, i, p.tag);
    var data := Served(c.rows[i].data, p.off);
    FilledRowIff(c, m1, q, i, data);
    AnsweredFromSameFlat(c, m, m1, q, Done(c.Set(i, RowAfter(c, q, data)), m1, BytesAfter(c, q, data)));
  }

  /** Otherwise it is left waiting for a block that was never asked for. */
  lemma DirtyVictimNeverAnswered(c: Table, m: Mem, q: Request)
    requires DirtyVictim(c, m, q) && m.writeLatency > 0
    ensures var r := Present(c, m, q, false, true);
      !Answered(c, m, Idle, q, r, NextPhase(c, m, Idle, q, r))
  {
    DirtyVictimIs(c, m, q);
  }

  /** A load, or a store of part of a block, whose victim is dirty asks memory twice in one stage, and the block
      read is refused: it is answered rightly exactly when writes take no time and the block, but for what the
      store overwrites, is zeros, or for an address inside the block the victim's bytes with the first cleared. */
  lemma DirtyVictimAnsweredIff(c: Table, m: Mem, q: Request)
    requires DirtyVictim(c, m, q)
    ensures var data := Served(c.rows[c.Victim(c.Split(q.address).set_)].data, c.Split(q.address).off);
      var r := Present(c, m, q, false, true);
      Answered(c, m, Idle, q, r, NextPhase(c, m, Idle, q, r))
      <==> m.writeLatency == 0 && After(c, q, data) == After(c, q, BlockOf(c, m.bytes, q))
  {
    if m.writeLatency == 0 {
      DirtyVictimAtOnceIff(c, m, q);
      DirtyVictimIs(c, m, q);
    } else {
      DirtyVictimNeverAnswered(c, m, q);
    }
  }

  /** The write-back does not reach the block that was asked for. */
  lemma VictimBlockApart(c: Table, bytes: seq<byte>, i: nat, tag: nat)
    requires c.Valid() && i < c.numBlocks && c.rows[i].valid && c.kind == Data && c.Resident(tag, i).None?
    requires RowBase(c, i) + 8 <= |bytes| && c.Base(tag, i) + 8 <= |bytes|
    ensures var base := c.Base(tag, i);
      Splice(bytes, RowBase(c, i), c.rows[i].data)[base..base + 8] == bytes[base..base + 8]
  {
    BlocksApart(c, c.rows[i].tag, i, tag, i);
  }
}
