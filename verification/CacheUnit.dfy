/** The cache as the simulator keeps it: rows updated in place, memory called on the way. */
module CacheUnits {
  import opened Words
  import opened MemoryUnits
  import opened Cache

  datatype Verdict = Ok(bytes: seq<byte>) | Stalled(code: byte) | Aborted | OutOfBounds

  datatype Found = AtRow(row: nat) | NotYet | Nowhere

  class CacheUnit {
    const kind: Kind
    const indexLength: nat
    const numBlocks: nat
    const rows: array<Row>

    ghost predicate Valid()
      reads rows
    {
      View().Valid()
    }

    ghost function View(): Table
      reads rows
    {
      Table(kind, indexLength, numBlocks, rows[..])
    }

    constructor (kind: Kind, indexLength: nat)
      requires 1 <= indexLength <= 28
      ensures Valid() && fresh(rows)
      ensures this.kind == kind && this.indexLength == indexLength
      ensures View() == Empty(kind, indexLength)
    {
      this.kind, this.indexLength, numBlocks := kind, indexLength, Pow2(indexLength);
      rows := new Row[Pow2(indexLength) * if kind == Data then 2 else 1]
        (_ => Row(0, Zeros(if kind == Instruction then 16 else 8), false, false));
    }

    /** The verdict and the state left behind, as the specification functions give them. */
    ghost predicate Agrees(v: Verdict, mem: MemoryUnit, r: Access)
      reads rows, mem, mem.bytes, mem.slots
    {
      match v
      case Ok(bytes) => r == Done(View(), mem.View(), bytes)
      case Stalled(code) => r == Stall(View(), mem.View(), code)
      case Aborted => r.Abort?
      case OutOfBounds => r.Wild?
    }

    ghost predicate Finds(f: Found, mem: MemoryUnit, r: Eviction)
      reads rows, mem, mem.bytes, mem.slots
    {
      match f
      case AtRow(i) => r == Filled(View(), mem.View(), i)
      case NotYet => r == Waiting(View(), mem.View())
      case Nowhere => r.Lost?
    }

    method SetRow(i: nat, row: Row)
      requires Valid() && i < rows.Length
      modifies rows
      ensures View() == old(View()).Set(i, row)
    {
      rows[i] := row;
    }

    method Fill(mem: MemoryUnit, address: nat, i: nat, tag: nat, followup: bool, needsStall: bool) returns (f: Found)
      requires Valid() && mem.Valid() && i < rows.Length
      modifies rows, mem, mem.slots
      ensures Finds(f, mem, Cache.Fill(old(View()), old(mem.View()), address, i, tag, followup, needsStall))
    {
      var done, fill;
      if followup {
        done, fill := mem.Status(address);
      } else {
        done, fill := mem.Read(address, if kind == Instruction then 16 else 8);
      }
      SetRow(i, rows[i].(data := Overlay(rows[i].data, fill)));
      if !done || needsStall {
        return NotYet;
      }
      SetRow(i, rows[i].(tag := tag, valid := true, dirty := false));
      assert View().rows == old(View()).rows[i := rows[i]];
      return AtRow(i);
    }

    method WriteBack(mem: MemoryUnit, i: nat, followup: bool) returns (proceed: bool, owed: bool, lost: bool)
      requires Valid() && mem.Valid() && i < rows.Length
      modifies rows, mem, mem.bytes, mem.slots
      ensures match Cache.WriteBack(old(View()), old(mem.View()), i, followup)
        case Astray => lost
        case Uncleaned(m) => !lost && !proceed && m == mem.View() && View() == old(View())
        case Cleaned(c, m, o) => !lost && proceed && owed == o && c == View() && m == mem.View()
    {
      if kind == Instruction || !rows[i].dirty {
        return true, false, false;
      }
      var oldAddress := BitOr(rows[i].tag * Pow2(indexLength + 3), i * Pow2(3));
      assert oldAddress == View().OldAddress(i);
      if followup {
        var done, fill := mem.Status(oldAddress);
        if fill != [] { return false, false, true; }
        if !done { return false, false, false; }
        SetRow(i, rows[i].(dirty := false));
        return true, false, false;
      }
      var done := mem.Write(oldAddress, rows[i].data, 8);
      if done {
        SetRow(i, rows[i].(dirty := false));
      }
      return true, !done, false;
    }

    method EvictRead(mem: MemoryUnit, address: nat, index: nat, tag: nat, followup: bool) returns (f: Found)
      requires Valid() && mem.Valid() && index < rows.Length
      modifies rows, mem, mem.bytes, mem.slots
      ensures Finds(f, mem, Cache.EvictRead(old(View()), old(mem.View()), address, index, tag, followup))
    {
      var i := index;
      if kind == Data && rows[index].valid {
        if index >= numBlocks {
          return Nowhere;
        }
        if !rows[index + numBlocks].valid || (rows[index].dirty && !rows[index + numBlocks].dirty) {
          i := index + numBlocks;
        }
      }
      var proceed, owed, lost := WriteBack(mem, i, followup);
      if lost { return Nowhere; }
      if !proceed { return NotYet; }
      f := Fill(mem, address, i, tag, followup, owed);
    }

    method Lookup(index: nat, tag: nat) returns (row: Option<nat>)
      requires Valid() && index < numBlocks
      ensures row == View().Resident(tag, index)
    {
      if rows[index].valid && rows[index].tag == tag {
        return Some(index);
      } else if kind == Data && rows[index + numBlocks].valid && rows[index + numBlocks].tag == tag {
        return Some(index + numBlocks);
      }
      return None;
    }

    method Extract(i: nat, off: nat, size: nat, ghost mem: MemoryUnit) returns (v: Verdict)
      requires Valid() && i < rows.Length && off < View().BlockBytes() && off % 4 == 0
      ensures Agrees(v, mem, Cache.Extract(View(), mem.View(), i, off, size))
    {
      if size == 8 && off + 8 > (if kind == Instruction then 16 else 8) {
        return OutOfBounds;
      }
      if size !in {1, 2, 4, 8} {
        return Aborted;
      }
      return Ok(rows[i].data[off..off + size]);
    }

    method ReadMiss(mem: MemoryUnit, address: nat, p: Place, size: nat, followup: bool, available: bool)
      returns (v: Verdict)
      requires Valid() && mem.Valid() && p.set_ < numBlocks && p.off < View().BlockBytes() && p.off % 4 == 0
      modifies rows, mem, mem.bytes, mem.slots
      ensures Agrees(v, mem, Cache.ReadMiss(old(View()), old(mem.View()), address, p, size, followup, available))
    {
      if !available {
        return Stalled(2);
      }
      var f := EvictRead(mem, address, p.set_, p.tag, followup);
      match f {
        case Nowhere => return OutOfBounds;
        case NotYet => return Stalled(1);
        case AtRow(i) => v := Extract(i, p.off, size, mem);
      }
    }

    method ReadAccess(mem: MemoryUnit, address: nat, size: nat, followup: bool, available: bool) returns (v: Verdict)
      requires Valid() && mem.Valid()
      modifies rows, mem, mem.bytes, mem.slots
      ensures Agrees(v, mem, Cache.ReadAccess(old(View()), old(mem.View()), address, size, followup, available))
    {
      ghost var view := View();
      var p := Table(kind, indexLength, numBlocks, []).Split(address);
      assert p == view.Split(address);
      if p.off % 4 != 0 {
        return Aborted;
      }
      var hit := Lookup(p.set_, p.tag);
      if hit.Some? && !(kind == Instruction && size == 8 && p.off == 12) {
        v := Extract(hit.value, p.off, size, mem);
      } else {
        v := ReadMiss(mem, address, p, size, followup, available);
      }
    }

    method Put(i: nat, p: Place, data: Word, size: nat) returns (v: Verdict)
      requires Valid() && kind == Data && i < rows.Length
      modifies rows
      ensures v == if p.off + size > 8 then OutOfBounds else Ok([])
      ensures v.Ok? ==> View() == old(View()).Set(i,
        Patched(old(rows[i]), p.off, data, size).(tag := p.tag, valid := true, dirty := true))
    {
      if p.off + size > 8 {
        return OutOfBounds;
      }
      var row := rows[i];
      row := row.(data := Splice(row.data, p.off, data[..size]));
      row := row.(tag := p.tag);
      row := row.(valid := true);
      row := row.(dirty := true);
      SetRow(i, row);
      return Ok([]);
    }

    /** The eight-byte store: the victim is written back when dirty, then replaced. */
    method ReplaceWhole(mem: MemoryUnit, i: nat, p: Place, data: Word, followup: bool, available: bool)
      returns (v: Verdict)
      requires Valid() && mem.Valid() && kind == Data && i < rows.Length
      modifies rows, mem, mem.bytes, mem.slots
      ensures Agrees(v, mem, Cache.ReplaceWhole(old(View()), old(mem.View()), i, p, data, followup, available))
    {
      if rows[i].dirty && !available {
        return Stalled(2);
      }
      var proceed, owed, lost := WriteBack(mem, i, followup);
      if lost { return OutOfBounds; }
      if !proceed || owed { return Stalled(1); }
      v := Put(i, p, data, 8);
    }

    method EvictWrite(mem: MemoryUnit, address: nat, p: Place, data: Word, size: nat, followup: bool, available: bool)
      returns (v: Verdict)
      requires Valid() && mem.Valid() && kind == Data && p.set_ < numBlocks
      modifies rows, mem, mem.bytes, mem.slots
      ensures Agrees(v, mem,
        Cache.EvictWrite(old(View()), old(mem.View()), address, p, data, size, followup, available))
    {
      var i := p.set_;
      if rows[i].valid && (!rows[i + numBlocks].valid || (rows[i].dirty && !rows[i + numBlocks].dirty)) {
        i := i + numBlocks;
      }
      if size == 8 {
        v := ReplaceWhole(mem, i, p, data, followup, available);
        return;
      }
      if !available {
        return Stalled(2);
      }
      var f := EvictRead(mem, address, i, p.tag, followup);
      match f {
        case Nowhere => return OutOfBounds;
        case NotYet => return Stalled(1);
        case AtRow(j) => v := Put(j, p, data, size);
      }
    }

    method WriteAccess(mem: MemoryUnit, address: nat, data: Word, size: nat, followup: bool, available: bool)
      returns (v: Verdict)
      requires Valid() && mem.Valid()
      modifies rows, mem, mem.bytes, mem.slots
      ensures Agrees(v, mem,
        Cache.WriteAccess(old(View()), old(mem.View()), address, data, size, followup, available))
    {
      if kind != Data {
        return Stalled(1);
      }
      var p := Table(kind, indexLength, numBlocks, []).Split(address);
      assert p == View().Split(address);
      var hit := Lookup(p.set_, p.tag);
      if hit.Some? {
        if p.off + size > 8 {
          return OutOfBounds;
        }
        SetRow(p.set_, Patched(rows[p.set_], p.off, data, size));
        return Ok([]);
      }
      v := EvictWrite(mem, address, p, data, size, followup, available);
    }
  }
}
