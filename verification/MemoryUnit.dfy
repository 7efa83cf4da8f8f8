/** The memory as the simulator keeps it: global arrays and counters updated in place. */
module MemoryUnits {
  import opened Words
  import opened Memory

  class MemoryUnit {
    const bytes: array<byte>
    const slots: array<Slot>
    var stage: Stage
    var issued: set<Stage>
    var cycle: nat
    var readCounter: nat
    var readBytes: nat
    var writeCounter: nat
    var writeBytes: nat
    const readLatency: nat
    const writeLatency: nat

    ghost predicate Valid()
    {
      slots.Length == MAX_PENDING
    }

    ghost function View(): Mem
      reads this, bytes, slots
    {
      Mem(bytes[..], slots[..], stage, issued, cycle, readCounter, readBytes, writeCounter, writeBytes,
        readLatency, writeLatency)
    }

    constructor (memorySize: nat, readLatency: nat, writeLatency: nat)
      ensures Valid() && fresh(bytes) && fresh(slots)
      ensures View() == InitialMem(memorySize, readLatency, writeLatency)
    {
      this.bytes := new byte[memorySize](_ => 0);
      this.slots := new Slot[MAX_PENDING](_ => Slot(0, 0, 0, Free));
      stage, issued, cycle := NoStage, {}, 0;
      readCounter, readBytes, writeCounter, writeBytes := 0, 0, 0, 0;
      this.readLatency, this.writeLatency := readLatency, writeLatency;
    }

    method AddPending(address: nat, size: nat, op: Op) returns (ok: bool)
      requires Valid()
      modifies slots
      ensures View() == Memory.AddPending(old(View()), address, size, op)
      ensures ok <==> exists i :: 0 <= i < MAX_PENDING && old(slots[i].op) == Free
    {
      var i := 0;
      ghost var before := slots[..];
      while i < MAX_PENDING
        invariant 0 <= i <= MAX_PENDING
        invariant slots[..] == before
        invariant forall j :: 0 <= j < i ==> before[j].op != Free
      {
        if slots[i].op == Free {
          slots[i] := Slot(address, size, cycle + if op == Writing then writeLatency else readLatency, op);
          assert FirstFree(before) == i;
          assert slots[..] == before[i := slots[i]];
          assert before[i].op == Free;
          return true;
        }
        i := i + 1;
      }
      assert FirstFree(before) == MAX_PENDING;
      return false;
    }

    method Read(address: nat, size: nat) returns (done: bool, fill: seq<byte>)
      requires Valid()
      modifies this, slots
      ensures Response(View(), done, fill) == Memory.Read(old(View()), address, size)
    {
      if !(size <= 16 && size in {1, 2, 4, 8, 16} && address + size <= bytes.Length && address % size == 0) {
        return true, [0];
      }
      if stage !in {Fetch, Access} || stage in issued {
        return true, Zeros(size);
      }
      readCounter := readCounter + 1;
      readBytes := readBytes + size;
      issued := issued + {stage};
      assert View() == old(View()).(readCounter := readCounter, readBytes := readBytes, issued := issued);
      if readLatency == 0 {
        return true, bytes[address..address + size];
      }
      var _ := AddPending(address, size, Reading);
      return false, Zeros(size);
    }

    method Write(address: nat, value: Word, size: nat) returns (done: bool)
      requires Valid()
      modifies this, bytes, slots
      ensures Response(View(), done, []) == Memory.Write(old(View()), address, value, size)
    {
      if !(size <= 8 && size in {1, 2, 4, 8, 16} && address + size <= bytes.Length && address % size == 0) {
        return true;
      }
      if stage != Access || stage in issued {
        return true;
      }
      issued := issued + {stage};
      ghost var before := bytes[..];
      for i := 0 to size
        modifies bytes
        invariant forall a :: 0 <= a < bytes.Length ==>
          bytes[a] == if address <= a < address + i then value[a - address] else before[a]
      {
        bytes[address + i] := value[i];
      }
      assert bytes[..] == Splice(before, address, value[..size]);
      writeCounter := writeCounter + 1;
      writeBytes := writeBytes + size;
      assert View() == old(View()).(issued := issued, bytes := bytes[..], writeCounter := writeCounter,
          writeBytes := writeBytes);
      if writeLatency == 0 {
        return true;
      }
      var _ := AddPending(address, size, Writing);
      return false;
    }

    method Status(address: nat) returns (done: bool, fill: seq<byte>)
      requires Valid()
      modifies slots
      ensures Response(View(), done, fill) == Memory.Status(old(View()), address)
    {
      ghost var before := slots[..];
      for i := 0 to MAX_PENDING
        invariant slots[..] == before
        invariant forall j :: 0 <= j < i ==> before[j].address != address
      {
        if slots[i].address == address {
          assert Find(before, address) == i;
          if slots[i].endCycle <= cycle {
            fill := [];
            if slots[i].op == Reading && address + slots[i].size <= bytes.Length {
              fill := bytes[address..address + slots[i].size];
            }
            slots[i] := slots[i].(op := Completed);
            assert slots[..] == before[i := slots[i]];
            return true, fill;
          }
          return false, [];
        }
      }
      assert Find(before, address) == MAX_PENDING;
      return false, [];
    }

    method EndCycle()
      requires Valid()
      modifies this, slots
      ensures View() == Memory.EndCycle(old(View()))
    {
      cycle := cycle + 1;
      ghost var before := slots[..];
      for i := 0 to MAX_PENDING
        modifies slots
        invariant forall j :: 0 <= j < MAX_PENDING ==> slots[j] == if j < i then Retired(before[j]) else before[j]
      {
        if slots[i].op == Completed {
          slots[i] := slots[i].(op := Free);
        }
      }
      issued := {};
      assert slots[..] == Memory.EndCycle(old(View())).slots;
    }
  }
}
