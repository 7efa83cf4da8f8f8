/** Seen through its rows, a cache over memory is a flat memory. */
module CacheRefinement {
  import opened Words
  import opened Cache
  import opened CacheProofs

  /** No row is being filled. */
  const NO_HOLE := -1

  // ---------------------------------------------------------------- the abstraction

  /** The row that answers for a block, the row being filled left aside. */
  function Covers(c: Table, hole: int, tag: nat, set_: nat): (r: Option<nat>)
    requires c.Shaped() && set_ < c.numBlocks
    ensures r.Some? ==> r.value < |c.rows| && c.Matches(r.value, tag) && SetOf(c, r.value) == set_ && r.value != hole
  {
    if set_ != hole && c.Matches(set_, tag) then Some(set_)
    else if c.kind == Data && set_ + c.numBlocks != hole && c.Matches(set_ + c.numBlocks, tag)
    then Some(set_ + c.numBlocks)
    else None
  }

  function AbsByte(c: Table, bytes: seq<byte>, hole: int, a: nat): byte
    requires c.Valid() && a < |bytes|
  {
    var p := c.Split(a);
    match Covers(c, hole, p.tag, p.set_)
    case Some(i) => c.rows[i].data[p.off]
    case None => bytes[a]
  }

  /** The flat memory: the covering row where there is one, else memory. */
  function Flat(c: Table, bytes: seq<byte>, hole: int): (r: seq<byte>)
    requires c.Valid()
    ensures |r| == |bytes|
  {
    seq(|bytes|, a requires 0 <= a < |bytes| => AbsByte(c, bytes, hole, a))
  }

  // ---------------------------------------------------------------- the invariant

  /** Single residence: no two valid ways of a set hold the same tag. */
  ghost predicate Unique(c: Table)
    requires c.Shaped()
  {
    forall i, j | 0 <= i < |c.rows| && 0 <= j < |c.rows| && SetOf(c, i) == SetOf(c, j)
                  && c.rows[i].valid && c.rows[j].valid && c.rows[i].tag == c.rows[j].tag :: i == j
  }

  /** The row's data is what memory holds at its block. */
  ghost predicate InSync(c: Table, bytes: seq<byte>, i: nat)
    requires c.Valid() && i < |c.rows|
  {
    var base := RowBase(c, i);
    base + c.BlockBytes() <= |bytes| && c.rows[i].data == bytes[base..base + c.BlockBytes()]
  }

  ghost predicate RowOk(c: Table, bytes: seq<byte>, hole: int, i: nat)
    requires c.Valid() && i < |c.rows|
  {
    var row := c.rows[i];
    && (row.dirty ==> row.valid && i != hole)
    && (row.valid ==> RowBase(c, i) + c.BlockBytes() <= |bytes|)
    && (row.valid && !row.dirty && i != hole ==> InSync(c, bytes, i))
  }

  ghost predicate Inv(c: Table, bytes: seq<byte>, hole: int) {
    && c.Valid()
    && Unique(c)
    && -1 <= hole < |c.rows|
    && forall i :: 0 <= i < |c.rows| ==> RowOk(c, bytes, hole, i)
  }

  // ---------------------------------------------------------------- four transitions

  /** Two states agree on a byte when the covering row, or memory, does. */
  lemma FlatEqual(c: Table, bytes: seq<byte>, hole: int, d: Table, bytes': seq<byte>, hole': int)
    requires c.Valid() && d.Valid() && |bytes| == |bytes'|
    requires forall a :: 0 <= a < |bytes| ==> AbsByte(c, bytes, hole, a) == AbsByte(d, bytes', hole', a)
    ensures Flat(c, bytes, hole) == Flat(d, bytes', hole')
  {
  }

  /** A row of the block covers it. */
  lemma CoveredBy(c: Table, bytes: seq<byte>, hole: int, i: nat, a: nat)
    requires Inv(c, bytes, hole) && i < |c.rows| && i != hole && c.rows[i].valid
    requires c.Split(a).tag == c.rows[i].tag && c.Split(a).set_ == SetOf(c, i)
    ensures Covers(c, hole, c.rows[i].tag, SetOf(c, i)) == Some(i)
  {
  }

  /** A byte of a row in step with memory is memory's byte. */
  lemma SyncByte(c: Table, bytes: seq<byte>, i: nat, a: nat)
    requires c.Valid() && i < |c.rows| && InSync(c, bytes, i) && a < |bytes|
    requires c.Split(a).tag == c.rows[i].tag && c.Split(a).set_ == SetOf(c, i)
    ensures c.rows[i].data[c.Split(a).off] == bytes[a]
  {
    SplitJoin(c, a);
  }

  // Dropping a row

  function Dropped(c: Table, i: nat, data: seq<byte>): (d: Table)
    requires c.Valid() && i < |c.rows| && |data| == c.BlockBytes()
    ensures d.Valid() && d.SameShape(c)
  {
    c.Set(i, c.rows[i].(data := data, dirty := false))
  }

  lemma DropCovers(c: Table, i: nat, data: seq<byte>, tag: nat, set_: nat)
    requires c.Valid() && Unique(c) && i < |c.rows| && |data| == c.BlockBytes() && set_ < c.numBlocks
    ensures var before := Covers(c, NO_HOLE, tag, set_);
      Covers(Dropped(c, i, data), i, tag, set_) == if before == Some(i) then None else before
  {
    if Covers(c, NO_HOLE, tag, set_) == Some(i) {
      assert forall j :: 0 <= j < |c.rows| && j != i && SetOf(c, j) == set_ ==> !c.Matches(j, tag);
    }
  }

  lemma DropByte(c: Table, bytes: seq<byte>, i: nat, data: seq<byte>, a: nat)
    requires c.Valid() && Unique(c) && i < |c.rows| && |data| == c.BlockBytes() && a < |bytes|
    requires c.rows[i].valid ==> InSync(c, bytes, i)
    ensures AbsByte(Dropped(c, i, data), bytes, i, a) == AbsByte(c, bytes, NO_HOLE, a)
  {
    var p := c.Split(a);
    DropCovers(c, i, data, p.tag, p.set_);
    if Covers(c, NO_HOLE, p.tag, p.set_) == Some(i) {
      SyncByte(c, bytes, i, a);
    }
  }

  lemma DropInv(c: Table, bytes: seq<byte>, i: nat, data: seq<byte>)
    requires Inv(c, bytes, NO_HOLE) && i < |c.rows| && |data| == c.BlockBytes()
    ensures Inv(Dropped(c, i, data), bytes, i)
  {
    var d := Dropped(c, i, data);
    forall j | 0 <= j < |d.rows| ensures RowOk(d, bytes, i, j) {
      assert RowOk(c, bytes, NO_HOLE, j);
    }
  }

  /** A row in step with memory may be given up, whatever its bytes become. */
  lemma Drop(c: Table, bytes: seq<byte>, i: nat, data: seq<byte>)
    requires Inv(c, bytes, NO_HOLE) && i < |c.rows| && |data| == c.BlockBytes()
    requires c.rows[i].valid ==> InSync(c, bytes, i)
    ensures var d := Dropped(c, i, data);
      Inv(d, bytes, i) && Flat(d, bytes, i) == Flat(c, bytes, NO_HOLE)
  {
    DropInv(c, bytes, i, data);
    forall a | 0 <= a < |bytes| ensures AbsByte(c, bytes, NO_HOLE, a) == AbsByte(Dropped(c, i, data), bytes, i, a) {
      DropByte(c, bytes, i, data, a);
    }
    FlatEqual(c, bytes, NO_HOLE, Dropped(c, i, data), bytes, i);
  }

  // Loading a row

  function Loaded(c: Table, bytes: seq<byte>, i: nat, tag: nat): (d: Table)
    requires c.Valid() && i < |c.rows| && c.Base(tag, SetOf(c, i)) + c.BlockBytes() <= |bytes|
    ensures d.Valid() && d.SameShape(c)
  {
    var base := c.Base(tag, SetOf(c, i));
    c.Set(i, Row(tag, bytes[base..base + c.BlockBytes()], false, true))
  }

  lemma LoadCovers(c: Table, bytes: seq<byte>, i: nat, tag: nat, t: nat, set_: nat)
    requires c.Valid() && i < |c.rows| && set_ < c.numBlocks
    requires c.Base(tag, SetOf(c, i)) + c.BlockBytes() <= |bytes|
    requires c.Resident(tag, SetOf(c, i)).None?
    ensures Covers(Loaded(c, bytes, i, tag), NO_HOLE, t, set_)
      == if t == tag && set_ == SetOf(c, i) then Some(i) else Covers(c, i, t, set_)
    ensures t == tag && set_ == SetOf(c, i) ==> Covers(c, i, t, set_).None?
  {
  }

  lemma LoadByte(c: Table, bytes: seq<byte>, i: nat, tag: nat, a: nat)
    requires c.Valid() && i < |c.rows| && a < |bytes|
    requires c.Base(tag, SetOf(c, i)) + c.BlockBytes() <= |bytes|
    requires c.Resident(tag, SetOf(c, i)).None?
    ensures AbsByte(Loaded(c, bytes, i, tag), bytes, NO_HOLE, a) == AbsByte(c, bytes, i, a)
  {
    var d := Loaded(c, bytes, i, tag);
    var p := c.Split(a);
    LoadCovers(c, bytes, i, tag, p.tag, p.set_);
    if p.tag == tag && p.set_ == SetOf(c, i) {
      assert InSync(d, bytes, i);
      SyncByte(d, bytes, i, a);
    }
  }

  lemma LoadUnique(c: Table, bytes: seq<byte>, i: nat, tag: nat)
    requires c.Valid() && Unique(c) && i < |c.rows| && c.Resident(tag, SetOf(c, i)).None?
    requires c.Base(tag, SetOf(c, i)) + c.BlockBytes() <= |bytes|
    ensures Unique(Loaded(c, bytes, i, tag))
  {
    assert forall j :: 0 <= j < |c.rows| && SetOf(c, j) == SetOf(c, i) ==> !c.Matches(j, tag);
  }

  lemma LoadInv(c: Table, bytes: seq<byte>, i: nat, tag: nat)
    requires Inv(c, bytes, i) && i < |c.rows|
    requires c.Resident(tag, SetOf(c, i)).None?
    requires c.Base(tag, SetOf(c, i)) + c.BlockBytes() <= |bytes|
    ensures Inv(Loaded(c, bytes, i, tag), bytes, NO_HOLE)
  {
    var d := Loaded(c, bytes, i, tag);
    LoadUnique(c, bytes, i, tag);
    forall j | 0 <= j < |d.rows| ensures RowOk(d, bytes, NO_HOLE, j) {
      assert RowOk(c, bytes, i, j);
    }
  }

  /** The row being filled may take in a block that is not resident. */
  lemma Load(c: Table, bytes: seq<byte>, i: nat, tag: nat)
    requires Inv(c, bytes, i) && i < |c.rows|
    requires c.Resident(tag, SetOf(c, i)).None?
    requires c.Base(tag, SetOf(c, i)) + c.BlockBytes() <= |bytes|
    ensures var d := Loaded(c, bytes, i, tag);
      Inv(d, bytes, NO_HOLE) && Flat(d, bytes, NO_HOLE) == Flat(c, bytes, i)
  {
    LoadInv(c, bytes, i, tag);
    var d := Loaded(c, bytes, i, tag);
    forall a | 0 <= a < |bytes| ensures AbsByte(c, bytes, i, a) == AbsByte(d, bytes, NO_HOLE, a) {
      LoadByte(c, bytes, i, tag, a);
    }
    FlatEqual(c, bytes, i, d, bytes, NO_HOLE);
  }

  // Patching a row

  function PatchedAt(c: Table, i: nat, off: nat, data: Word, size: nat): (d: Table)
    requires c.Valid() && c.kind == Data && i < |c.rows| && off + size <= 8
    ensures d.Valid() && d.SameShape(c)
  {
    c.Set(i, Patched(c.rows[i], off, data, size).(dirty := true))
  }

  lemma PatchInv(c: Table, bytes: seq<byte>, hole: int, i: nat, off: nat, data: Word, size: nat)
    requires Inv(c, bytes, hole) && c.kind == Data && i < |c.rows| && i != hole && c.rows[i].valid && off + size <= 8
    ensures Inv(PatchedAt(c, i, off, data, size), bytes, hole)
  {
    var d := PatchedAt(c, i, off, data, size);
    forall j | 0 <= j < |d.rows| ensures RowOk(d, bytes, hole, j) {
      assert RowOk(c, bytes, hole, j);
    }
  }

  lemma PatchCovers(c: Table, hole: int, i: nat, off: nat, data: Word, size: nat, tag: nat, set_: nat)
    requires c.Valid() && Unique(c) && c.kind == Data && i < |c.rows| && i != hole && c.rows[i].valid && off + size <= 8
    requires set_ < c.numBlocks
    ensures Covers(PatchedAt(c, i, off, data, size), hole, tag, set_) == Covers(c, hole, tag, set_)
    ensures (tag == c.rows[i].tag && set_ == SetOf(c, i)) <==> Covers(c, hole, tag, set_) == Some(i)
  {
  }

  /** Two addresses of a block differ by their offsets; an address of another block is not between them. */
  lemma SameBlock(c: Table, x: nat, a: nat, size: nat)
    requires c.numBlocks > 0 && c.Split(x).off + size <= c.BlockBytes()
    ensures var (p, q) := (c.Split(x), c.Split(a));
      && (x <= a < x + size ==> q == Place(p.tag, p.set_, p.off + a - x))
      && (q.tag == p.tag && q.set_ == p.set_ ==> a - x == q.off - p.off)
  {
    SplitJoin(c, x);
    SplitJoin(c, a);
    var p := c.Split(x);
    if x <= a < x + size {
      SplitUnique(c, p.tag, p.set_, p.off + a - x);
    }
  }

  lemma PatchByte(c: Table, bytes: seq<byte>, hole: int, i: nat, x: nat, data: Word, size: nat, a: nat)
    requires c.Valid() && Unique(c) && c.kind == Data && i < |c.rows| && i != hole && c.rows[i].valid
    requires c.Split(x).tag == c.rows[i].tag && c.Split(x).set_ == SetOf(c, i) && c.Split(x).off + size <= 8
    requires a < |bytes|
    ensures AbsByte(PatchedAt(c, i, c.Split(x).off, data, size), bytes, hole, a)
      == if x <= a < x + size then data[a - x] else AbsByte(c, bytes, hole, a)
  {
    var p, q := c.Split(x), c.Split(a);
    PatchCovers(c, hole, i, p.off, data, size, q.tag, q.set_);
    SameBlock(c, x, a, size);
  }

  /** Bytes copied into the row that holds their block change exactly those bytes of the flat memory. */
  lemma Patch(c: Table, bytes: seq<byte>, hole: int, i: nat, x: nat, data: Word, size: nat)
    requires Inv(c, bytes, hole) && c.kind == Data && i < |c.rows| && i != hole && c.rows[i].valid
    requires c.Split(x).tag == c.rows[i].tag && c.Split(x).set_ == SetOf(c, i) && c.Split(x).off + size <= 8
    ensures x + size <= |bytes|
    ensures var d := PatchedAt(c, i, c.Split(x).off, data, size);
      && Inv(d, bytes, hole)
      && Flat(d, bytes, hole) == Splice(Flat(c, bytes, hole), x, data[..size])
  {
    SplitJoin(c, x);
    assert RowOk(c, bytes, hole, i);
    PatchInv(c, bytes, hole, i, c.Split(x).off, data, size);
    var d := PatchedAt(c, i, c.Split(x).off, data, size);
    forall a | 0 <= a < |bytes|
      ensures Flat(d, bytes, hole)[a] == Splice(Flat(c, bytes, hole), x, data[..size])[a]
    {
      PatchByte(c, bytes, hole, i, x, data, size, a);
    }
  }

  // Writing a row back

  lemma BlocksApart(c: Table, t: nat, s: nat, t': nat, s': nat)
    requires s < c.numBlocks && s' < c.numBlocks && (t != t' || s != s')
    ensures c.Base(t, s) + c.BlockBytes() <= c.Base(t', s') || c.Base(t', s') + c.BlockBytes() <= c.Base(t, s)
  {
    var x, y := c.Base(t, s), c.Base(t', s');
    SplitUnique(c, t, s, 0);
    SplitUnique(c, t', s', 0);
    if x <= y < x + c.BlockBytes() {
      SplitUnique(c, t, s, y - x);
    } else if y <= x < y + c.BlockBytes() {
      SplitUnique(c, t', s', x - y);
    }
  }

  lemma WrittenBackSync(c: Table, bytes: seq<byte>, i: nat, j: nat)
    requires Inv(c, bytes, NO_HOLE) && i < |c.rows| && c.rows[i].valid && j < |c.rows| && c.rows[j].valid
    ensures RowBase(c, i) + |c.rows[i].data| <= |bytes|
    ensures var after := Splice(bytes, RowBase(c, i), c.rows[i].data);
      if j == i then InSync(c, after, i) else InSync(c, bytes, j) ==> InSync(c, after, j)
  {
    assert RowOk(c, bytes, NO_HOLE, i);
    if j != i {
      BlocksApart(c, c.rows[i].tag, SetOf(c, i), c.rows[j].tag, SetOf(c, j));
    }
  }

  lemma WrittenBackByte(c: Table, bytes: seq<byte>, i: nat, a: nat)
    requires Inv(c, bytes, NO_HOLE) && i < |c.rows| && c.rows[i].valid && a < |bytes|
    requires RowBase(c, i) + |c.rows[i].data| <= |bytes|
    ensures AbsByte(c, Splice(bytes, RowBase(c, i), c.rows[i].data), NO_HOLE, a) == AbsByte(c, bytes, NO_HOLE, a)
  {
    var base := RowBase(c, i);
    if base <= a < base + c.BlockBytes() {
      SplitUnique(c, c.rows[i].tag, SetOf(c, i), a - base);
      CoveredBy(c, bytes, NO_HOLE, i, a);
    }
  }

  /** Writing a row's bytes to its block changes nothing visible and brings the row in step. */
  lemma WrittenBack(c: Table, bytes: seq<byte>, i: nat)
    requires Inv(c, bytes, NO_HOLE) && i < |c.rows| && c.rows[i].valid
    ensures RowBase(c, i) + |c.rows[i].data| <= |bytes|
    ensures var after := Splice(bytes, RowBase(c, i), c.rows[i].data);
      Inv(c, after, NO_HOLE) && InSync(c, after, i) && Flat(c, after, NO_HOLE) == Flat(c, bytes, NO_HOLE)
  {
    WrittenBackSync(c, bytes, i, i);
    var after := Splice(bytes, RowBase(c, i), c.rows[i].data);
    forall j | 0 <= j < |c.rows| ensures RowOk(c, after, NO_HOLE, j) {
      assert RowOk(c, bytes, NO_HOLE, j);
      if c.rows[j].valid {
        WrittenBackSync(c, bytes, i, j);
      }
    }
    forall a | 0 <= a < |bytes| ensures AbsByte(c, after, NO_HOLE, a) == AbsByte(c, bytes, NO_HOLE, a) {
      WrittenBackByte(c, bytes, i, a);
    }
    FlatEqual(c, after, NO_HOLE, c, bytes, NO_HOLE);
  }

  // ---------------------------------------------------------------- victims

  /** A victim is dirty only when both ways are, and is then way 0; so every write-back
      goes to exactly the base address of the evicted block. */
  lemma DirtyVictimIsWayZero(c: Table, bytes: seq<byte>, hole: int, s: nat)
    requires Inv(c, bytes, hole) && c.kind == Data && s < c.numBlocks
    ensures var i := c.Victim(s);
      && SetOf(c, i) == s
      && (c.rows[i].dirty <==> c.rows[s].dirty && c.rows[s + c.numBlocks].dirty)
      && (c.rows[i].dirty ==> i == s && c.OldAddress(i) == RowBase(c, i))
  {
    assert RowOk(c, bytes, hole, s) && RowOk(c, bytes, hole, s + c.numBlocks);
    WayZeroWriteBackExact(c, s);
  }

  lemma HitByte(c: Table, bytes: seq<byte>, i: nat, x: nat, size: nat, j: nat)
    requires Inv(c, bytes, NO_HOLE) && i < |c.rows| && c.rows[i].valid && j < size && x + size <= |bytes|
    requires c.Split(x).tag == c.rows[i].tag && c.Split(x).set_ == SetOf(c, i)
    requires c.Split(x).off + size <= c.BlockBytes()
    ensures c.rows[i].data[c.Split(x).off + j] == AbsByte(c, bytes, NO_HOLE, x + j)
  {
    SameBlock(c, x, x + j, size);
    CoveredBy(c, bytes, NO_HOLE, i, x + j);
  }

  /** A hit returns the flat memory's bytes. */
  lemma HitReadsFlat(c: Table, bytes: seq<byte>, i: nat, x: nat, size: nat)
    requires Inv(c, bytes, NO_HOLE) && i < |c.rows| && c.rows[i].valid
    requires c.Split(x).tag == c.rows[i].tag && c.Split(x).set_ == SetOf(c, i)
    requires c.Split(x).off + size <= c.BlockBytes()
    ensures x + size <= |bytes|
    ensures c.rows[i].data[c.Split(x).off..c.Split(x).off + size] == Flat(c, bytes, NO_HOLE)[x..x + size]
  {
    assert x + size <= |bytes| by {
      SplitJoin(c, x);
      assert RowOk(c, bytes, NO_HOLE, i);
    }
    var off := c.Split(x).off;
    var got, want := c.rows[i].data[off..off + size], Flat(c, bytes, NO_HOLE)[x..x + size];
    forall j | 0 <= j < size ensures got[j] == want[j] {
      HitByte(c, bytes, i, x, size, j);
    }
  }
}
