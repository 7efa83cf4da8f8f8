/** The caches of cache.c: a direct-mapped instruction cache of 16-byte blocks and a
    two-way write-back data cache of 8-byte blocks, over the split-transaction memory. */
module Cache {
  import opened Words
  import opened Memory

  datatype Kind = Instruction | Data

  datatype Row = Row(tag: nat, data: seq<byte>, dirty: bool, valid: bool)

  /** Where an address lies: tag and set name its block, `off` its byte in the block. */
  datatype Place = Place(tag: nat, set_: nat, off: nat)

  /** `rows` holds way 0 of every set, then, for data, way 1 of every set. */
  datatype Table = Table(kind: Kind, indexLength: nat, numBlocks: nat, rows: seq<Row>) {

    function BlockBits(): nat { if kind == Instruction then 4 else 3 }

    function BlockBytes(): nat { if kind == Instruction then 16 else 8 }

    predicate Shaped() {
      && 1 <= indexLength <= 28 && numBlocks == Pow2(indexLength)
      && |rows| == (if kind == Data then 2 * numBlocks else numBlocks)
    }

    predicate SameShape(c: Table) {
      kind == c.kind && indexLength == c.indexLength && numBlocks == c.numBlocks && |rows| == |c.rows|
    }

    predicate Valid() {
      && Shaped()
      && (forall i :: 0 <= i < |rows| ==> |rows[i].data| == BlockBytes())
      && (kind == Instruction ==> forall i :: 0 <= i < |rows| ==> !rows[i].dirty)
    }

    function Split(address: nat): Place
      requires numBlocks > 0
    {
      var block := address / BlockBytes();
      Place(block / numBlocks, block % numBlocks, address % BlockBytes())
    }

    function Base(tag: nat, set_: nat): nat { (tag * numBlocks + set_) * BlockBytes() }

    predicate Matches(i: nat, tag: nat)
      requires i < |rows|
    {
      rows[i].valid && rows[i].tag == tag
    }

    /** The first way of the set that holds the tag. */
    function Resident(tag: nat, set_: nat): (r: Option<nat>)
      requires Shaped() && set_ < numBlocks
      ensures r.Some? ==> r.value < |rows| && Matches(r.value, tag)
    {
      if Matches(set_, tag) then Some(set_)
      else if kind == Data && Matches(set_ + numBlocks, tag) then Some(set_ + numBlocks)
      else None
    }

    /** The way to evict, counted from row `i`: the other way when only it is free or only it is clean. */
    function Victim(i: nat): (r: nat)
      requires i < |rows| && (kind == Data ==> i + numBlocks < |rows|)
      ensures r < |rows|
    {
      if kind == Data && rows[i].valid
        && (!rows[i + numBlocks].valid || (rows[i].dirty && !rows[i + numBlocks].dirty))
      then i + numBlocks
      else i
    }

    /** The address written back for row `i`, tag and row number or-ed together. */
    function OldAddress(i: nat): nat
      requires i < |rows|
    {
      BitOr(rows[i].tag * Pow2(indexLength + BlockBits()), i * Pow2(BlockBits()))
    }

    function Set(i: nat, row: Row): Table
      requires i < |rows|
    {
      this.(rows := rows[i := row])
    }
  }

  /** A cache as it is constructed. */
  function Empty(kind: Kind, indexLength: nat): (c: Table)
    requires 1 <= indexLength <= 28
    ensures c.Valid() && c.kind == kind && forall i :: 0 <= i < |c.rows| ==> !c.rows[i].valid && !c.rows[i].dirty
  {
    var n := Pow2(indexLength);
    Table(kind, indexLength, n,
      seq(n * (if kind == Data then 2 else 1), _ => Row(0, Zeros(if kind == Instruction then 16 else 8), false, false)))
  }

  /** How an access ends. `Wild` is an access outside the C arrays, `Abort` is exit(1);
      the stall codes are 1, waiting for memory, and 2, the translation used the stage's access. */
  datatype Access =
    | Done(cache: Table, mem: Mem, bytes: seq<byte>)
    | Stall(cache: Table, mem: Mem, code: byte)
    | Abort
    | Wild

  datatype Eviction =
    | Filled(cache: Table, mem: Mem, row: nat)
    | Waiting(cache: Table, mem: Mem)
    | Lost

  /** Brings the block at `address` into row i. */
  function Fill(c: Table, m: Mem, address: nat, i: nat, tag: nat, followup: bool, needsStall: bool): (r: Eviction)
    requires c.Valid() && i < |c.rows|
    ensures r.Filled? ==> r.cache.Valid() && r.row == i && r.cache.SameShape(c)
    ensures r.Waiting? ==> r.cache.Valid() && r.cache.SameShape(c)
    ensures !r.Lost? ==> |r.mem.slots| == |m.slots|
  {
    var r := if followup then Status(m, address) else Read(m, address, c.BlockBytes());
    var row := c.rows[i].(data := Overlay(c.rows[i].data, r.fill));
    if !r.done || needsStall then Waiting(c.Set(i, row), r.mem)
    else Filled(c.Set(i, row.(tag := tag, valid := true, dirty := false)), r.mem, i)
  }

  /** Writing back a dirty row before it is refilled; `owed` when the write is still pending. */
  datatype Cleaning =
    | Cleaned(cache: Table, mem: Mem, owed: bool)
    | Uncleaned(mem: Mem)
    | Astray

  function WriteBack(c: Table, m: Mem, i: nat, followup: bool): (r: Cleaning)
    requires c.Valid() && i < |c.rows|
    ensures r.Cleaned? ==> r.cache.Valid() && r.cache.SameShape(c)
    ensures !r.Astray? ==> |r.mem.slots| == |m.slots|
  {
    if c.kind == Instruction || !c.rows[i].dirty then Cleaned(c, m, false)
    else
      var clean := c.Set(i, c.rows[i].(dirty := false));
      if followup then
        var r := Status(m, c.OldAddress(i));
        if r.fill != [] then Astray  // the bytes of a read go to a null pointer
        else if !r.done then Uncleaned(r.mem)
        else Cleaned(clean, r.mem, false)
      else
        var r := Write(m, c.OldAddress(i), c.rows[i].data, 8);
        Cleaned(if r.done then clean else c, r.mem, !r.done)
  }

  function EvictRead(c: Table, m: Mem, address: nat, index: nat, tag: nat, followup: bool): (r: Eviction)
    requires c.Valid() && index < |c.rows|
    ensures r.Filled? ==> r.cache.Valid() && r.row < |c.rows| && r.cache.SameShape(c)
    ensures r.Waiting? ==> r.cache.Valid() && r.cache.SameShape(c)
    ensures !r.Lost? ==> |r.mem.slots| == |m.slots|
  {
    // Counting way 1 from a row that is already way 1 leaves the table.
    if c.kind == Data && index >= c.numBlocks && c.rows[index].valid then Lost
    else
      var i := if c.kind == Data && index >= c.numBlocks then index else c.Victim(index);
      match WriteBack(c, m, i, followup)
      case Astray => Lost
      case Uncleaned(m1) => Waiting(c, m1)
      case Cleaned(c1, m1, owed) => Fill(c1, m1, address, i, tag, followup, owed)
  }

  function Extract(c: Table, m: Mem, i: nat, off: nat, size: nat): Access
    requires c.Valid() && i < |c.rows| && off < c.BlockBytes() && off % 4 == 0
  {
    if size == 8 && off + 8 > c.BlockBytes() then Wild
    else if size !in {1, 2, 4, 8} then Abort
    else Done(c, m, c.rows[i].data[off..off + size])
  }

  function ReadMiss(c: Table, m: Mem, address: nat, p: Place, size: nat, followup: bool, available: bool): (r: Access)
    requires c.Valid() && p.set_ < c.numBlocks && p.off < c.BlockBytes() && p.off % 4 == 0
    ensures r.Done? ==> r.cache.Valid() && |r.bytes| == size
    ensures r.Done? || r.Stall? ==> r.cache.Valid() && r.cache.SameShape(c) && |r.mem.slots| == |m.slots|
    ensures r.Stall? ==> r.code == 1 || r.code == 2
  {
    if !available then
      Stall(c, m, 2)
    else
      match EvictRead(c, m, address, p.set_, p.tag, followup)
      case Lost => Wild
      case Waiting(c1, m1) => Stall(c1, m1, 1)
      case Filled(c1, m1, i) => Extract(c1, m1, i, p.off, size)
  }

  function ReadAccess(c: Table, m: Mem, address: nat, size: nat, followup: bool, available: bool): (r: Access)
    requires c.Valid()
    ensures r.Done? ==> r.cache.Valid() && |r.bytes| == size
    ensures r.Done? || r.Stall? ==> r.cache.Valid() && r.cache.SameShape(c) && |r.mem.slots| == |m.slots|
    ensures r.Stall? ==> r.code == 1 || r.code == 2
  {
    var p := c.Split(address);
    if p.off % 4 != 0 then Abort
    else
      var hit := c.Resident(p.tag, p.set_);
      if hit.Some? && !(c.kind == Instruction && size == 8 && p.off == 12) then
        Extract(c, m, hit.value, p.off, size)
      else
        ReadMiss(c, m, address, p, size, followup, available)
  }

  /** Row i after `size` bytes of `data` were copied to its offset `off`. */
  function Patched(row: Row, off: nat, data: Word, size: nat): (r: Row)
    requires |row.data| == 8 && off + size <= 8
    ensures |r.data| == 8
  {
    row.(data := Splice(row.data, off, data[..size]))
  }

  function Put(c: Table, m: Mem, i: nat, p: Place, data: Word, size: nat): (r: Access)
    requires c.Valid() && c.kind == Data && i < |c.rows|
    ensures r.Done? ==> r.cache.Valid() && r.cache.SameShape(c) && r.mem == m
    ensures !r.Stall? && !r.Abort?
  {
    if p.off + size > 8 then Wild
    else Done(c.Set(i, Patched(c.rows[i], p.off, data, size).(tag := p.tag, valid := true, dirty := true)), m, [])
  }

  /** An eight-byte store takes row i whole; a dirty row is written back first. */
  function ReplaceWhole(c: Table, m: Mem, i: nat, p: Place, data: Word, followup: bool, available: bool): (r: Access)
    requires c.Valid() && c.kind == Data && i < |c.rows|
    ensures r.Done? || r.Stall? ==> r.cache.Valid() && r.cache.SameShape(c) && |r.mem.slots| == |m.slots|
  {
    if c.rows[i].dirty && !available then Stall(c, m, 2)
    else
      match WriteBack(c, m, i, followup)
      case Astray => Wild
      case Uncleaned(m1) => Stall(c, m1, 1)
      case Cleaned(c1, m1, owed) => if owed then Stall(c1, m1, 1) else Put(c1, m1, i, p, data, 8)
  }

  function EvictWrite(c: Table, m: Mem, address: nat, p: Place, data: Word, size: nat, followup: bool,
      available: bool): (r: Access)
    requires c.Valid() && c.kind == Data && p.set_ < c.numBlocks
    ensures r.Done? || r.Stall? ==> r.cache.Valid() && r.cache.SameShape(c) && |r.mem.slots| == |m.slots|
  {
    var i := c.Victim(p.set_);
    if size == 8 then ReplaceWhole(c, m, i, p, data, followup, available)
    else if !available then Stall(c, m, 2)
    else
      match EvictRead(c, m, address, i, p.tag, followup)
      case Lost => Wild
      case Waiting(c1, m1) => Stall(c1, m1, 1)
      case Filled(c1, m1, j) => Put(c1, m1, j, p, data, size)
  }

  function WriteAccess(c: Table, m: Mem, address: nat, data: Word, size: nat, followup: bool,
      available: bool): (r: Access)
    requires c.Valid()
    ensures r.Done? || r.Stall? ==> r.cache.Valid() && r.cache.SameShape(c) && |r.mem.slots| == |m.slots|
  {
    if c.kind != Data then Stall(c, m, 1)
    else
      var p := c.Split(address);
      if c.Resident(p.tag, p.set_).Some? then
        // Whichever way matched, the bytes go to way 0.
        if p.off + size > 8 then Wild
        else Done(c.Set(p.set_, Patched(c.rows[p.set_], p.off, data, size)), m, [])
      else
        EvictWrite(c, m, address, p, data, size, followup, available)
  }
}
