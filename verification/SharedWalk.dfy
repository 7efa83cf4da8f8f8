/** One presentation of a page walk next to the other stage's request. */
module SharedWalk {
  import opened Words
  import opened Memory
  import opened Traffic
  import opened Tlb
  import opened TlbProofs

  predicate Waiting(status: byte) {
    status == WAIT_FIRST || status == HELD || status == WAIT_SECOND
  }

  /** What the table holds for a walk with this status. */
  predicate TableFor(a: Ask, t: Table, status: byte) {
    && t.Valid() && (status == START || Waiting(status))
    && (status == START ==> !Hits(t, a.va))
    && (status == HELD || status == WAIT_SECOND ==> t.cachedSecond == a.first)
  }

  /** The word the next read of the walk asks for. */
  function NextAddress(a: Ask, status: byte): nat {
    if status == START then a.FirstAt() else a.SecondAt()
  }

  /** When the request of the new status ends: a new one after the latency. */
  function NextEnd(status: byte, status': byte, end: nat, m: Mem): nat {
    if status == status' then end else m.cycle + m.readLatency
  }

  ghost predicate Arrived(a: Ask, t: Table, r: Walk)
    requires t.Valid()
  {
    && r.Walk? && r.table.Valid() && r.status == START && r.output == Physical(Frame(a.second), a.va)
    && r.table.entries == t.entries[TableIndex(a.va) := Entry(true, Frame(a.second), a.va / 0x2_0000)]
  }

  ghost predicate Moved(a: Ask, t: Table, m: Mem, status: byte, end: nat, r: Walk, own: Option<Slot>) {
    && r.Walk? && Waiting(r.status) && TableFor(a, r.table, r.status) && r.table.entries == t.entries
    && Pending(own) == Request(a, r.status, NextEnd(status, r.status, end, m))
  }

  /** A presentation leaves the bytes and the other stage's request alone, and moves the walk on or ends it. */
  ghost predicate Stepped(a: Ask, t: Table, m: Mem, status: byte, end: nat, other: Option<Slot>, r: Walk,
      own: Option<Slot>)
    requires t.Valid()
  {
    && r.Walk? && r.mem.bytes == m.bytes && SameClock(m, r.mem) && Shared(r.mem, own, other)
    && (Moved(a, t, m, status, end, r, own) || (status != START && Arrived(a, t, r) && Pending(own).None?))
  }

  /** The walk may present: its own request is in the table, and what it reads next is not the other stage's. */
  ghost predicate MayWalk(a: Ask, t: Table, m: Mem, status: byte, end: nat, other: Option<Slot>) {
    && TableFor(a, t, status) && Holds(a, m.bytes) && Mapped(a) && Admitted(a.va)
        && Shared(m, Request(a, status, end), other)
    && (Issues(status) ==> m.stage in {Fetch, Access} && m.stage !in m.issued && Apart(other, NextAddress(a, status)))
  }

  lemma WordIsProper(m: Mem, address: nat, word: nat)
    requires WordAt(m.bytes, address) == Some(word)
    ensures m.Proper(address, 4, 16) && Dump(m.bytes, address, 4) == m.bytes[address..address + 4]
    ensures U32(m.bytes[address..address + 4]) == word
  {
  }

  lemma StartStep(a: Ask, t: Table, m: Mem, end: nat, other: Option<Slot>, junk: Quad) returns (own: Option<Slot>)
    requires MayWalk(a, t, m, START, end, other)
    ensures Stepped(a, t, m, START, end, other, GetAddress(a.ptbr, t, m, a.va, START, junk), own)
  {
    WordIsProper(m, a.FirstAt(), a.first);
    ReadShared(m, other, a.FirstAt(), 4);
    own := if m.readLatency == 0 then None else Some(Slot(a.FirstAt(), 4, m.cycle + m.readLatency, Reading));
  }

  lemma FirstStep(a: Ask, t: Table, m: Mem, end: nat, other: Option<Slot>, junk: Quad) returns (own: Option<Slot>)
    requires MayWalk(a, t, m, WAIT_FIRST, end, other)
    ensures Stepped(a, t, m, WAIT_FIRST, end, other, GetAddress(a.ptbr, t, m, a.va, WAIT_FIRST, junk), own)
  {
    var s := Slot(a.FirstAt(), 4, end, Reading);
    WordIsProper(m, a.FirstAt(), a.first);
    PollShared(m, s, other);
    own := Some(s.(op := if end <= m.cycle then Completed else Reading));
  }

  lemma HeldStep(a: Ask, t: Table, m: Mem, end: nat, other: Option<Slot>, junk: Quad) returns (own: Option<Slot>)
    requires MayWalk(a, t, m, HELD, end, other)
    ensures Stepped(a, t, m, HELD, end, other, GetAddress(a.ptbr, t, m, a.va, HELD, junk), own)
  {
    WordIsProper(m, a.SecondAt(), a.second);
    ReadShared(m, other, a.SecondAt(), 4);
    FinishIs(a, t, Read(m, a.SecondAt(), 4).mem);
    own := if m.readLatency == 0 then None else Some(Slot(a.SecondAt(), 4, m.cycle + m.readLatency, Reading));
  }

  lemma SecondStep(a: Ask, t: Table, m: Mem, end: nat, other: Option<Slot>, junk: Quad) returns (own: Option<Slot>)
    requires MayWalk(a, t, m, WAIT_SECOND, end, other)
    ensures Stepped(a, t, m, WAIT_SECOND, end, other, GetAddress(a.ptbr, t, m, a.va, WAIT_SECOND, junk), own)
  {
    var s := Slot(a.SecondAt(), 4, end, Reading);
    WordIsProper(m, a.SecondAt(), a.second);
    PollShared(m, s, other);
    FinishIs(a, t, Status(m, a.SecondAt()).mem);
    own := Some(s.(op := if end <= m.cycle then Completed else Reading));
  }

  lemma WalkStep(a: Ask, t: Table, m: Mem, status: byte, end: nat, other: Option<Slot>, junk: Quad)
    returns (own: Option<Slot>)
    requires MayWalk(a, t, m, status, end, other)
    ensures Stepped(a, t, m, status, end, other, GetAddress(a.ptbr, t, m, a.va, status, junk), own)
  {
    if status == START {
      own := StartStep(a, t, m, end, other, junk);
    } else if status == WAIT_FIRST {
      own := FirstStep(a, t, m, end, other, junk);
    } else if status == HELD {
      own := HeldStep(a, t, m, end, other, junk);
    } else {
      own := SecondStep(a, t, m, end, other, junk);
    }
  }

  /** The status a presentation returns: reads take the latency, polls succeed from the end of the request on. */
  function NextStatus(m: Mem, status: byte, end: nat): byte {
    if status == START then (if m.readLatency == 0 then HELD else WAIT_FIRST)
    else if status == WAIT_FIRST then (if end <= m.cycle then HELD else WAIT_FIRST)
    else if status == HELD then (if m.readLatency == 0 then START else WAIT_SECOND)
    else if end <= m.cycle then START else WAIT_SECOND
  }

  lemma WalkIsTimely(a: Ask, t: Table, m: Mem, status: byte, end: nat, other: Option<Slot>, junk: Quad)
    requires MayWalk(a, t, m, status, end, other)
    ensures var r := GetAddress(a.ptbr, t, m, a.va, status, junk); r.Walk? && r.status == NextStatus(m, status, end)
  {
    WordIsProper(m, a.FirstAt(), a.first);
    WordIsProper(m, a.SecondAt(), a.second);
    if status == START {
      ReadShared(m, other, a.FirstAt(), 4);
    } else if status == WAIT_FIRST {
      PollShared(m, Slot(a.FirstAt(), 4, end, Reading), other);
    } else if status == HELD {
      ReadShared(m, other, a.SecondAt(), 4);
      FinishIs(a, t, Read(m, a.SecondAt(), 4).mem);
    } else {
      PollShared(m, Slot(a.SecondAt(), 4, end, Reading), other);
      FinishIs(a, t, Status(m, a.SecondAt()).mem);
    }
  }
}
