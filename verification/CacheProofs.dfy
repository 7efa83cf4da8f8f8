/** What the caches guarantee: blocks resident once, write-backs to the right address,
    and, seen through the rows, a flat memory. */
module CacheProofs {
  import opened Words
  import opened Memory
  import opened Cache

  // ---------------------------------------------------------------- places

  /** The shifts of read_access and write_access compute block number, set and offset. */
  lemma ShiftsSplitAddress(c: Table, address: nat)
    requires c.Shaped()
    ensures var (b, k) := (c.BlockBits(), c.indexLength);
      c.Split(address) == Place(Shr(address, b + k), Shr(Shl64(address, 64 - b - k), 64 - k),
                                Shr(Shl64(address, 64 - b), 64 - b))
  {
    var b, k := c.BlockBits(), c.indexLength;
    assert Pow2(3) == 8 && Pow2(4) == 16;
    ShiftsTakeBits(address, b, k);
    LowBits(address, b);
    DivDiv(address, Pow2(b), Pow2(k));
    Pow2Adds(b, k);
  }

  lemma LowBits(address: nat, b: nat)
    requires b <= 64
    ensures Shr(Shl64(address, 64 - b), 64 - b) == address % Pow2(b)
  {
    ShiftsTakeBits(address, 0, b);
    assert address / Pow2(0) == address;
  }

  lemma DivDiv(a: nat, x: nat, y: nat)
    requires x > 0 && y > 0
    ensures x * y > 0 && a / x / y == a / (x * y)
  {
    var q, r := a / x, a % x;
    var hi, lo := q / y, q % y;
    DivModId(a, x);
    DivModId(q, y);
    assert a == hi * (x * y) + (lo * x + r) by {
      assert (hi * y + lo) * x == hi * (x * y) + lo * x;
    }
    assert lo * x + r < x * y by {
      MulAtLeast(y - lo, x);
      assert (y - lo) * x == x * y - lo * x;
    }
    DivModUnique(a, x * y, hi, lo * x + r);
  }

  lemma SplitJoin(c: Table, a: nat)
    requires c.numBlocks > 0
    ensures var p := c.Split(a);
      p.set_ < c.numBlocks && p.off < c.BlockBytes() && a == c.Base(p.tag, p.set_) + p.off
  {
    DivModId(a / c.BlockBytes(), c.numBlocks);
  }

  lemma SplitUnique(c: Table, tag: nat, set_: nat, off: nat)
    requires set_ < c.numBlocks && off < c.BlockBytes()
    ensures c.Split(c.Base(tag, set_) + off) == Place(tag, set_, off)
  {
    DivModUnique(c.Base(tag, set_) + off, c.BlockBytes(), tag * c.numBlocks + set_, off);
    DivModUnique(tag * c.numBlocks + set_, c.numBlocks, tag, set_);
  }

  function SetOf(c: Table, i: nat): nat
    requires i < c.numBlocks || i - c.numBlocks < c.numBlocks
  {
    if i < c.numBlocks then i else i - c.numBlocks
  }

  /** The address of the block a row holds. */
  function RowBase(c: Table, i: nat): nat
    requires c.Shaped() && i < |c.rows|
  {
    c.Base(c.rows[i].tag, SetOf(c, i))
  }

  /** A row of way 0 is written back to exactly the base address of its block. */
  lemma WayZeroWriteBackExact(c: Table, i: nat)
    requires c.Shaped() && i < c.numBlocks
    ensures c.OldAddress(i) == RowBase(c, i)
  {
    OldAddressIs(c, i, 0, i);
    BitOrZero(c.rows[i].tag);
  }

  /** A row of way 1 would be, exactly when its tag is odd: the way number falls on the tag's low bit. */
  lemma WayOneWriteBackExactIff(c: Table, i: nat)
    requires c.Shaped() && c.kind == Data && c.numBlocks <= i < |c.rows|
    ensures c.OldAddress(i) == RowBase(c, i) <==> c.rows[i].tag % 2 == 1
  {
    var tag, s := c.rows[i].tag, i - c.numBlocks;
    OldAddressIs(c, i, 1, s);
    BitOrOne(tag);
    BaseMonotone(c, tag, s);
  }

  lemma BaseMonotone(c: Table, tag: nat, s: nat)
    requires c.numBlocks > 0
    ensures c.Base(tag + 1, s) != c.Base(tag, s)
  {
    assert (tag + 1) * c.numBlocks == tag * c.numBlocks + c.numBlocks;
  }

  lemma BitOrOne(t: nat)
    ensures BitOr(t, 1) == if t % 2 == 0 then t + 1 else t
  {
    BitOrZero(t / 2);
    BitOrStep(t / 2, 0, 1);
    if t % 2 == 1 {
      assert BitOr(t, 1) == 1 + 2 * BitOr(t / 2, 0);
    }
  }

  lemma Regroup(way: nat, s: nat, n: nat, B: nat, x: nat)
    requires s < n && B > 0
    ensures (way * n + s) * B == way * (n * B) + s * B
    ensures s * B < n * B
    ensures x * (n * B) + s * B == (x * n + s) * B
  {
    assert (way * n + s) * B == way * n * B + s * B;
    assert (x * n + s) * B == x * n * B + s * B;
    MulAtLeast(n - s, B);
    assert (n - s) * B == n * B - s * B;
  }

  lemma OrOfParts(t: nat, way: nat, s: nat, n: nat, B: nat, m: nat)
    requires s < n && B > 0 && Pow2(m) == n * B
    ensures BitOr(t * Pow2(m), (way * n + s) * B) == (BitOr(t, way) * n + s) * B
  {
    Regroup(way, s, n, B, BitOr(t, way));
    BitOrHigh(t, way, s * B, m);
  }

  lemma OldAddressIs(c: Table, i: nat, way: nat, s: nat)
    requires c.Shaped() && i < |c.rows| && i == way * c.numBlocks + s && s < c.numBlocks
    ensures c.OldAddress(i) == c.Base(BitOr(c.rows[i].tag, way), s)
  {
    var b, k := c.BlockBits(), c.indexLength;
    BlockBytesArePow2(c);
    Pow2Adds(k, b);
    OrOfParts(c.rows[i].tag, way, s, c.numBlocks, c.BlockBytes(), k + b);
  }

  lemma BlockBytesArePow2(c: Table)
    ensures Pow2(c.BlockBits()) == c.BlockBytes()
  {
    assert Pow2(3) == 8 && Pow2(4) == 16;
  }

  // ---------------------------------------------------------------- what is refused

  /** A read off a four-byte boundary ends the program, and a write to the instruction cache waits and does nothing. */
  lemma Refusals(c: Table, m: Mem, x: nat, data: Word, size: nat, followup: bool, available: bool)
    requires c.Valid()
    ensures x % 4 != 0 ==> ReadAccess(c, m, x, size, followup, available) == Abort
    ensures c.kind == Instruction ==> WriteAccess(c, m, x, data, size, followup, available) == Stall(c, m, 1)
  {
    OffsetKeepsAlignment(x, c.BlockBytes());
  }

  lemma OffsetKeepsAlignment(x: nat, B: nat)
    requires B == 8 || B == 16
    ensures x % B % 4 == x % 4
  {
  }

  /** A row that holds the block answers any read within it with its bytes, and nothing changes. Eight bytes across the
      end of an instruction block are sought in memory; across the end of a data block they leave the row. */
  lemma ResidentAnswers(c: Table, m: Mem, x: nat, size: nat, followup: bool, available: bool)
    requires c.Valid() && x % 4 == 0 && c.Resident(c.Split(x).tag, c.Split(x).set_).Some?
    ensures var i, off := c.Resident(c.Split(x).tag, c.Split(x).set_).value, x % c.BlockBytes();
      var r := ReadAccess(c, m, x, size, followup, available);
      && (size in {1, 2, 4, 8} && off + size <= c.BlockBytes() ==> r == Done(c, m, c.rows[i].data[off..off + size]))
      && (size == 8 && off + size > c.BlockBytes() ==>
            if c.kind == Data then r == Wild else !available ==> r == Stall(c, m, 2))
      && (size !in {1, 2, 4, 8} ==> r == Abort)
  {
    OffsetKeepsAlignment(x, c.BlockBytes());
  }

  /** A miss presented again over a dirty victim asks after the write-back: while memory holds no ended request for its
      address nothing changes, an ended read there is copied astray, and an ended write cleans the row. */
  lemma WriteBackPolled(c: Table, m: Mem, x: nat, s: nat, tag: nat)
    requires c.Valid() && c.kind == Data && s < c.numBlocks && c.rows[c.Victim(s)].dirty
    ensures var i := c.Victim(s);
      var k := Find(m.slots, c.OldAddress(i));
      var r := EvictRead(c, m, x, s, tag, true);
      if k == |m.slots| || m.slots[k].endCycle > m.cycle then r == Waiting(c, m)
      else if m.slots[k].op == Reading then
        0 < m.slots[k].size <= |m.bytes| - c.OldAddress(i) ==> r == Lost
      else !r.Lost? && !r.cache.rows[i].dirty
  {
  }
}
