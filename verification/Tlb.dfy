/** The resumable two-level page walk of TLB.c and its eight-entry table of 16 KB superpages. */
module Tlb {
  import opened Words
  import opened Memory

  const HIT := 0xFE        // found in the table
  const START := 0xFF      // presented for the first time; as a result, walk finished
  const WAIT_FIRST := 0    // first-level read outstanding
  const HELD := 2          // first-level entry held, second level not yet read
  const WAIT_SECOND := 1   // second-level read outstanding
  const INVALID := 0x80    // a page-table entry without its valid bit

  datatype Entry = Entry(valid: bool, physicalPage: nat, virtualPage: nat)

  datatype Table = Table(entries: seq<Entry>, cachedSecond: nat) {
    predicate Valid() {
      |entries| == 8
    }
  }

  function Empty(): (t: Table)
    ensures t.Valid()
  {
    Table(seq(8, _ => Entry(false, 0, 0)), 0)
  }

  /** `output` is the physical address, meaningful when `status` is HIT or START. */
  datatype Walk =
    | Walk(table: Table, mem: Mem, status: byte, output: nat)
    | Abort

  function TableIndex(va: nat): (i: nat)
    ensures i < 8
  {
    va / 0x4000 % 8
  }

  /** The check of the walk's end: both index computations name the same entry. */
  predicate Admitted(va: nat) {
    va / 0x2_0000 == TableIndex(va)
  }

  function FirstAddress(ptbr: nat, va: nat): nat {
    (va / 0x40_0000 * 4 + ptbr) % TWO32
  }

  function SecondAddress(first: nat, va: nat): nat {
    (first % 0x8000_0000 * 0x1000 % TWO32 + va / 0x1000 % 256 * 4) % TWO32
  }

  predicate EntryValid(word: nat) {
    word / 0x8000_0000 == 1
  }

  /** The 18-bit superpage frame kept from a second-level entry. */
  function Frame(word: nat): nat {
    word * 2 % TWO32 / 8 % 0x4_0000
  }

  function Physical(frame: nat, va: nat): nat {
    frame * 0x4000 % TWO32 + va % 0x4000
  }

  /** `junk` is what the uninitialised local holds that a refused read leaves untouched. */
  function Update(ptbr: nat, t: Table, m: Mem, va: nat, status: byte, junk: Quad): (r: Walk)
    requires t.Valid()
    ensures r.Walk? ==> r.table.Valid() && |r.mem.slots| == |m.slots|
  {
    if status == WAIT_FIRST || status == START then
      var first := FirstAddress(ptbr, va);
      var r := if status == START then Read(m, first, 4) else Status(m, first);
      if !r.done then Walk(t, r.mem, WAIT_FIRST, 0)
      else Walk(t.(cachedSecond := U32(Overlay(junk, r.fill))), r.mem, HELD, 0)
    else if !EntryValid(t.cachedSecond) then
      Walk(t, m, INVALID, 0)
    else
      var second := SecondAddress(t.cachedSecond, va);
      var r := if status == WAIT_SECOND then Status(m, second) else Read(m, second, 4);
      if !r.done then Walk(t, r.mem, WAIT_SECOND, 0)
      else Finish(t, r.mem, va, U32(Overlay(junk, r.fill)))
  }

  function Finish(t: Table, m: Mem, va: nat, word: nat): (r: Walk)
    requires t.Valid()
    ensures r.Walk? ==> r.table.Valid() && |r.mem.slots| == |m.slots|
  {
    if !EntryValid(word) then Walk(t, m, INVALID, 0)
    else if !Admitted(va) then Abort
    else
      var i := TableIndex(va);
      var e := Entry(true, Frame(word), va / 0x2_0000 % 0x8000);
      Walk(t.(entries := t.entries[i := e]), m, START, Physical(e.physicalPage, va))
  }

  predicate Hits(t: Table, va: nat)
    requires t.Valid()
  {
    var e := t.entries[TableIndex(va)];
    va / 0x2_0000 == e.virtualPage && e.valid
  }

  function GetAddress(ptbr: nat, t: Table, m: Mem, va: nat, status: byte, junk: Quad): (r: Walk)
    requires t.Valid()
    ensures r.Walk? ==> r.table.Valid() && |r.mem.slots| == |m.slots|
  {
    if status == START && Hits(t, va) then
      Walk(t, m, HIT, Physical(t.entries[TableIndex(va)].physicalPage, va))
    else
      Update(ptbr, t, m, va, status, junk)
  }
}

/** The translation buffer as the simulator keeps it. */
module TlbUnits {
  import opened Words
  import opened MemoryUnits
  import opened Tlb

  class TlbUnit {
    const entries: array<Entry>
    var cachedSecond: nat

    ghost predicate Valid() {
      entries.Length == 8
    }

    ghost function View(): Table
      reads this, entries
    {
      Table(entries[..], cachedSecond)
    }

    constructor ()
      ensures Valid() && fresh(entries)
      ensures View() == Empty()
    {
      entries := new Entry[8](_ => Entry(false, 0, 0));
      cachedSecond := 0;
    }

    method UpdateEntry(ptbr: nat, mem: MemoryUnit, va: nat, status: byte, junk: Quad)
      returns (newStatus: byte, output: nat, aborted: bool)
      requires Valid() && mem.Valid()
      modifies this, entries, mem, mem.slots
      ensures var r := Update(ptbr, old(View()), old(mem.View()), va, status, junk);
        (aborted <==> r.Abort?) && (!aborted ==> r == Walk(View(), mem.View(), newStatus, output))
    {
      var first := FirstAddress(ptbr, va);
      var done, fill := false, [];
      if status == WAIT_FIRST {
        done, fill := mem.Status(first);
        if !done { return WAIT_FIRST, 0, false; }
      } else if status == START {
        done, fill := mem.Read(first, 4);
        if !done { return WAIT_FIRST, 0, false; }
      }
      if done {
        cachedSecond := U32(Overlay(junk, fill));
        return HELD, 0, false;
      }
      if !EntryValid(cachedSecond) {
        return INVALID, 0, false;
      }
      var second := SecondAddress(cachedSecond, va);
      if status != WAIT_SECOND {
        done, fill := mem.Read(second, 4);
      } else {
        done, fill := mem.Status(second);
      }
      if !done { return WAIT_SECOND, 0, false; }
      var word := U32(Overlay(junk, fill));
      if !EntryValid(word) {
        return INVALID, 0, false;
      }
      if va / 0x2_0000 != TableIndex(va) {
        return INVALID, 0, true;
      }
      var frame := Frame(word);
      entries[TableIndex(va)] := Entry(true, frame, va / 0x2_0000 % 0x8000);
      return START, Physical(frame, va), false;
    }

    method GetAddress(ptbr: nat, mem: MemoryUnit, va: nat, status: byte, junk: Quad)
      returns (newStatus: byte, output: nat, aborted: bool)
      requires Valid() && mem.Valid()
      modifies this, entries, mem, mem.slots
      ensures var r := Tlb.GetAddress(ptbr, old(View()), old(mem.View()), va, status, junk);
        (aborted <==> r.Abort?) && (!aborted ==> r == Walk(View(), mem.View(), newStatus, output))
    {
      if status == START {
        var e := entries[TableIndex(va)];
        if va / 0x2_0000 == e.virtualPage && e.valid {
          return HIT, Physical(e.physicalPage, va), false;
        }
      }
      newStatus, output, aborted := UpdateEntry(ptbr, mem, va, status, junk);
    }
  }
}
