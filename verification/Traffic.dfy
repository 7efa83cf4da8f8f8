/** The pending table shared by the fetch and the memory stage, each with at most one request of its own. */
module Traffic {
  import opened Words
  import opened Memory
  import opened MemoryProofs

  /** The index of a stage's request, if it has one. */
  function At(m: Mem, x: Option<Slot>): int {
    if x.Some? then Find(m.slots, x.value.address) else -1
  }

  /** The occupied slots are the requests x and y, each found by its address, and their addresses differ. */
  ghost predicate Shared(m: Mem, x: Option<Slot>, y: Option<Slot>) {
    && m.Valid()
    && (x.Some? ==> x.value.op != Free && Tracked(m, x.value))
    && (y.Some? ==> y.value.op != Free && Tracked(m, y.value))
    && (x.Some? && y.Some? ==> x.value.address != y.value.address)
    && forall j :: 0 <= j < |m.slots| && m.slots[j].op != Free ==> j == At(m, x) || j == At(m, y)
  }

  /** What is left of a request after the cycle: a completed one retires. */
  function Pending(x: Option<Slot>): Option<Slot> {
    if x.Some? && x.value.Live() then x else None
  }

  /** The address is not that of the request. */
  predicate Apart(y: Option<Slot>, address: nat) {
    y.Some? ==> y.value.address != address
  }

  lemma SharedSwap(m: Mem, x: Option<Slot>, y: Option<Slot>)
    requires Shared(m, x, y)
    ensures Shared(m, y, x)
  {
  }

  /** Two requests leave room for a third. */
  lemma Room(m: Mem, x: Option<Slot>, y: Option<Slot>)
    requires Shared(m, x, y)
    ensures FirstFree(m.slots) < MAX_PENDING
  {
    if FirstFree(m.slots) > 2 {
      assert m.slots[0].op != Free && m.slots[1].op != Free && m.slots[2].op != Free;
    }
  }

  /** The table alone decides. */
  lemma SameSlots(m: Mem, r: Mem, x: Option<Slot>, y: Option<Slot>)
    requires Shared(m, x, y) && r.slots == m.slots
    ensures Shared(r, x, y)
  {
  }

  lemma FreshShared(m: Mem, x: Option<Slot>, y: Option<Slot>, address: nat)
    requires Shared(m, x, y) && Apart(x, address) && Apart(y, address)
    ensures Fresh(m.slots, address)
  {
  }

  lemma FreshApart(m: Mem, x: Option<Slot>, y: Option<Slot>, address: nat)
    requires Shared(m, x, y) && Fresh(m.slots, address)
    ensures Apart(x, address) && Apart(y, address)
  {
  }

  /** What no memory call of a stage changes. */
  predicate SameClock(m: Mem, r: Mem) {
    && r.cycle == m.cycle && r.stage == m.stage && r.readLatency == m.readLatency && r.writeLatency == m.writeLatency
    && r.issued <= m.issued + {m.stage}
  }

  /** A new request, in the first free slot. */
  lemma AddShared(m: Mem, y: Option<Slot>, address: nat, size: nat, op: Op)
    requires Shared(m, None, y) && Apart(y, address) && (op == Reading || op == Writing)
    ensures var latency := if op == Writing then m.writeLatency else m.readLatency;
      Shared(AddPending(m, address, size, op), Some(Slot(address, size, m.cycle + latency, op)), y)
  {
    Room(m, None, y);
    FreshShared(m, None, y, address);
    AddTracks(m, address, size, op);
    var k := FirstFree(m.slots);
    var r := AddPending(m, address, size, op);
    FindIs(r.slots, address, k);
    if y.Some? {
      assert At(m, y) != k;
      FindIs(r.slots, y.value.address, At(m, y));
    }
  }

  /** An accepted read, before it is queued. */
  function Charged(m: Mem, size: nat): Mem {
    m.(readCounter := m.readCounter + 1, readBytes := m.readBytes + size, issued := m.issued + {m.stage})
  }

  lemma ReadIs(m: Mem, address: nat, size: nat)
    requires m.Proper(address, size, 16) && m.stage in {Fetch, Access} && m.stage !in m.issued
    ensures Read(m, address, size) ==
      if m.readLatency == 0 then Response(Charged(m, size), true, m.bytes[address..address + size])
      else Response(AddPending(Charged(m, size), address, size, Reading), false, Zeros(size))
  {
  }

  lemma ReadShared(m: Mem, y: Option<Slot>, address: nat, size: nat)
    requires Shared(m, None, y) && Apart(y, address) && m.Proper(address, size, 16)
    requires m.stage in {Fetch, Access} && m.stage !in m.issued
    ensures var r := Read(m, address, size);
      && r.mem.bytes == m.bytes && SameClock(m, r.mem) && (r.done <==> m.readLatency == 0)
      && (r.done ==> r.fill == m.bytes[address..address + size] && Shared(r.mem, None, y))
      && (!r.done ==> Shared(r.mem, Some(Slot(address, size, m.cycle + m.readLatency, Reading)), y))
  {
    ReadIs(m, address, size);
    SameSlots(m, Charged(m, size), None, y);
    if m.readLatency > 0 {
      AddShared(Charged(m, size), y, address, size, Reading);
    }
  }

  /** An accepted write, before it is queued. */
  function Written(m: Mem, address: nat, value: Word): Mem
    requires address + 8 <= |m.bytes|
  {
    m.(issued := m.issued + {m.stage}, bytes := Splice(m.bytes, address, value[..8]),
       writeCounter := m.writeCounter + 1, writeBytes := m.writeBytes + 8)
  }

  lemma WriteIs(m: Mem, address: nat, value: Word)
    requires m.Proper(address, 8, 8) && m.stage == Access && m.stage !in m.issued
    ensures Write(m, address, value, 8) ==
      if m.writeLatency == 0 then Response(Written(m, address, value), true, [])
      else Response(AddPending(Written(m, address, value), address, 8, Writing), false, [])
  {
  }

  lemma WriteShared(m: Mem, y: Option<Slot>, address: nat, value: Word)
    requires Shared(m, None, y) && Apart(y, address) && m.Proper(address, 8, 8)
    requires m.stage == Access && m.stage !in m.issued
    ensures var r := Write(m, address, value, 8);
      && r.mem.bytes == Splice(m.bytes, address, value[..8]) && SameClock(m, r.mem) && (r.done <==> m.writeLatency == 0)
      && (r.done ==> Shared(r.mem, None, y))
      && (!r.done ==> Shared(r.mem, Some(Slot(address, 8, m.cycle + m.writeLatency, Writing)), y))
  {
    WriteIs(m, address, value);
    SameSlots(m, Written(m, address, value), None, y);
    if m.writeLatency > 0 {
      AddShared(Written(m, address, value), y, address, 8, Writing);
    }
  }

  /** A poll of the stage's own request. */
  lemma PollShared(m: Mem, s: Slot, y: Option<Slot>)
    requires Shared(m, Some(s), y) && s.Live()
    ensures var r := Status(m, s.address);
      && r.mem.bytes == m.bytes && SameClock(m, r.mem) && (r.done <==> s.endCycle <= m.cycle)
      && (r.done ==>
            && r.fill == (if s.op == Reading then Dump(m.bytes, s.address, s.size) else [])
            && Shared(r.mem, Some(s.(op := Completed)), y))
      && (!r.done ==> r.mem == m && r.fill == [])
  {
    var r := Status(m, s.address);
    if r.done {
      FindIs(r.mem.slots, s.address, At(m, Some(s)));
      if y.Some? {
        FindIs(r.mem.slots, y.value.address, At(m, y));
      }
    }
  }

  lemma TickKeepsOne(m: Mem, r: Mem, x: Slot)
    requires r == EndCycle(m) && Tracked(m, x) && x.Live()
    ensures Tracked(r, x) && Find(r.slots, x.address) == Find(m.slots, x.address)
  {
    assert forall j :: 0 <= j < |r.slots| ==> r.slots[j] == Retired(m.slots[j]);
    FindIs(r.slots, x.address, Find(m.slots, x.address));
  }

  /** The end of a cycle retires what completed. */
  lemma TickShared(m: Mem, x: Option<Slot>, y: Option<Slot>)
    requires Shared(m, x, y)
    ensures Shared(EndCycle(m), Pending(x), Pending(y))
  {
    var r := EndCycle(m);
    if Pending(x).Some? {
      TickKeepsOne(m, r, x.value);
    }
    if Pending(y).Some? {
      TickKeepsOne(m, r, y.value);
    }
    forall j | 0 <= j < |r.slots| && r.slots[j].op != Free
      ensures j == At(r, Pending(x)) || j == At(r, Pending(y))
    {
      assert r.slots[j] == Retired(m.slots[j]);
    }
  }

  /** With nobody waiting, every address is free to ask for. */
  lemma NothingPending(m: Mem, address: nat)
    requires Shared(m, None, None)
    ensures Fresh(m.slots, address)
  {
  }
}
