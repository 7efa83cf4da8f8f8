/** The resumable walk refines a pure two-level walk, in exactly 2L + 1 cycles after its first. */
module TlbProofs {
  import opened Words
  import opened Memory
  import opened MemoryProofs
  import opened Tlb

  // ---------------------------------------------------------------- the reference

  function WordAt(bytes: seq<byte>, address: nat): (r: Option<nat>)
    ensures r.Some? ==> r.value < TWO32
  {
    if address % 4 == 0 && address + 4 <= |bytes| then Some(U32(bytes[address..address + 4])) else None
  }

  /** A two-level walk over ten-bit indices, without any table, status or latency:
      the first-level entry names a 4 KB page table, the second-level entry a superpage. */
  function PureWalk(bytes: seq<byte>, ptbr: nat, va: nat): Option<nat> {
    match WordAt(bytes, ptbr + 4 * (va / 0x40_0000))
    case None => None
    case Some(first) =>
      if first < 0x8000_0000 then None
      else
        match WordAt(bytes, (first - 0x8000_0000) * 0x1000 + 4 * (va / 0x1000 % 0x400))
        case None => None
        case Some(second) =>
          if second < 0x8000_0000 then None
          else Some((second - 0x8000_0000) / 4 % 0x4_0000 * 0x4000 + va % 0x4000)
  }

  /** One translation: what is asked, and the two page-table words it meets. */
  datatype Ask = Ask(ptbr: nat, va: nat, first: nat, second: nat) {
    function FirstAt(): nat { FirstAddress(ptbr, va) }
    function SecondAt(): nat { SecondAddress(first, va) }
    predicate Mine(address: nat) { address == FirstAt() || address == SecondAt() }
  }

  /** Memory holds the words at the addresses the code computes, the second where the first is valid. */
  ghost predicate Holds(a: Ask, bytes: seq<byte>) {
    && a.va < TWO32 && WordAt(bytes, a.FirstAt()) == Some(a.first)
    && (EntryValid(a.first) ==> WordAt(bytes, a.SecondAt()) == Some(a.second))
  }

  /** Both words have their valid bit. */
  predicate Mapped(a: Ask) {
    EntryValid(a.first) && EntryValid(a.second)
  }

  /** Translation succeeds only below 1 MB, where the eight-bit second-level index loses nothing. */
  lemma AdmittedIsLow(va: nat)
    requires Admitted(va)
    ensures va < 0x10_0000 && va / 0x40_0000 == 0 && va / 0x1000 % 256 == va / 0x1000 % 0x400
  {
    assert va / 0x2_0000 < 8;
  }

  lemma SecondAddressExact(va: nat, first: nat, size: nat)
    requires Admitted(va) && 0x8000_0000 <= first < TWO32
    requires (first - 0x8000_0000) * 0x1000 + 4 * (va / 0x1000 % 0x400) + 4 <= size <= TWO32
    ensures SecondAddress(first, va) == (first - 0x8000_0000) * 0x1000 + 4 * (va / 0x1000 % 0x400)
  {
    AdmittedIsLow(va);
    assert first % 0x8000_0000 == first - 0x8000_0000;
  }

  lemma PhysicalExact(second: nat, va: nat)
    requires 0x8000_0000 <= second < TWO32
    ensures Physical(Frame(second), va) == (second - 0x8000_0000) / 4 % 0x4_0000 * 0x4000 + va % 0x4000
  {
    var low := second - 0x8000_0000;
    assert second * 2 % TWO32 == low * 2;
    assert low * 2 / 8 == low / 4;
  }

  lemma FirstAddressExact(ptbr: nat, va: nat)
    requires Admitted(va) && ptbr < TWO32
    ensures FirstAddress(ptbr, va) == ptbr == ptbr + 4 * (va / 0x40_0000)
  {
    AdmittedIsLow(va);
  }

  /** The words the code meets when it translates `va`. */
  function AskFor(bytes: seq<byte>, ptbr: nat, va: nat): Ask {
    var first := match WordAt(bytes, FirstAddress(ptbr, va)) case Some(w) => w case None => 0;
    var second :=
      if !EntryValid(first) then 0 else match WordAt(bytes, SecondAddress(first, va)) case Some(w) => w case None => 0;
    Ask(ptbr, va, first, second)
  }

  /** Where the pure walk succeeds and the address is admitted, the code's two addresses are the pure ones. */
  lemma AskIsPureWalk(bytes: seq<byte>, ptbr: nat, va: nat)
    requires Admitted(va) && ptbr < TWO32 && |bytes| <= TWO32
    requires PureWalk(bytes, ptbr, va).Some?
    ensures var a := AskFor(bytes, ptbr, va);
      Holds(a, bytes) && Mapped(a) && Some(Physical(Frame(a.second), va)) == PureWalk(bytes, ptbr, va)
  {
    var first := WordAt(bytes, ptbr + 4 * (va / 0x40_0000)).value;
    var at := (first - 0x8000_0000) * 0x1000 + 4 * (va / 0x1000 % 0x400);
    var second := WordAt(bytes, at).value;
    assert FirstAddress(ptbr, va) == ptbr + 4 * (va / 0x40_0000) by { FirstAddressExact(ptbr, va); }
    assert SecondAddress(first, va) == at by { SecondAddressExact(va, first, |bytes|); }
    assert Some(Physical(Frame(second), va)) == PureWalk(bytes, ptbr, va) by { PhysicalExact(second, va); }
    assert va < TWO32 by { AdmittedIsLow(va); }
  }

  /** The second-level table lies below 4 GB, so that its address does not wrap around in 32 bits. */
  predicate TableLow(first: nat) {
    first % 0x8000_0000 < 0x10_0000
  }

  /** What the code makes of the two words it reads. */
  function CodeWalk(a: Ask): Option<nat> {
    if Mapped(a) then Some(Physical(Frame(a.second), a.va)) else None
  }

  lemma SecondPureAddress(va: nat, first: nat)
    requires Admitted(va) && EntryValid(first) && first < TWO32 && TableLow(first)
    ensures SecondAddress(first, va) == (first - 0x8000_0000) * 0x1000 + 4 * (va / 0x1000 % 0x400)
  {
    AdmittedIsLow(va);
    assert first % 0x8000_0000 == first - 0x8000_0000;
  }

  /** Valid entries or not, what the code makes of the words it reads, where they lie in memory, is the pure
      walk's answer, exactly when both are valid only in a table below 4 GB. */
  lemma CodeWalkIsPureIff(bytes: seq<byte>, ptbr: nat, va: nat)
    requires Admitted(va) && ptbr < TWO32 && |bytes| <= TWO32 && Holds(AskFor(bytes, ptbr, va), bytes)
    ensures var a := AskFor(bytes, ptbr, va);
      CodeWalk(a) == PureWalk(bytes, ptbr, va) <==> (Mapped(a) ==> TableLow(a.first))
  {
    var a := AskFor(bytes, ptbr, va);
    FirstAddressExact(ptbr, va);
    if EntryValid(a.first) {
      if TableLow(a.first) {
        SecondPureAddress(va, a.first);
        if EntryValid(a.second) {
          PhysicalExact(a.second, va);
        }
      } else {
        HighTableIsAbsent(bytes, va, a.first);
      }
    }
  }

  lemma HighTableIsAbsent(bytes: seq<byte>, va: nat, first: nat)
    requires |bytes| <= TWO32 && EntryValid(first) && first < TWO32 && !TableLow(first)
    ensures WordAt(bytes, (first - 0x8000_0000) * 0x1000 + 4 * (va / 0x1000 % 0x400)).None?
  {
    assert first % 0x8000_0000 == first - 0x8000_0000;
  }

  // ---------------------------------------------------------------- the environment

  /** Traffic of the other memory-using stage: plain calls, to other addresses, off the page tables. */
  ghost predicate Foreign(a: Ask, op: MemOp) {
    match op
    case DoRead(x, n) => !a.Mine(x)
    case DoWrite(x, v, n) =>
      && !a.Mine(x)
      && (x + n <= a.FirstAt() || a.FirstAt() + 4 <= x)
      && (x + n <= a.SecondAt() || a.SecondAt() + 4 <= x)
    case Poll(x) => !a.Mine(x)
    case _ => false
  }

  ghost predicate AllForeign(a: Ask, ops: seq<MemOp>) {
    forall i :: 0 <= i < |ops| ==> Foreign(a, ops[i])
  }

  /** Among the occupied slots only slot i, if any, has one of the walk's addresses. */
  ghost predicate OnlyAt(a: Ask, slots: seq<Slot>, i: int) {
    forall j :: 0 <= j < |slots| && slots[j].op != Free && a.Mine(slots[j].address) ==> j == i
  }

  /** What a stretch of foreign traffic keeps. */
  ghost predicate Kept(a: Ask, m: Mem, r: Mem, i: int, s: Option<Slot>, other: Stage) {
    && r.Valid() && Holds(a, r.bytes) && OnlyAt(a, r.slots, i)
    && (s.Some? ==> Tracked(r, s.value) && Find(r.slots, s.value.address) == i)
    && r.cycle == m.cycle && r.readLatency == m.readLatency
    && r.issued <= m.issued + {other} && r.stage == other
  }

  ghost predicate Ready(a: Ask, m: Mem, i: int, s: Option<Slot>) {
    && m.Valid() && Holds(a, m.bytes) && OnlyAt(a, m.slots, i)
    && (s.Some? ==>
          && s.value.op != Free && a.Mine(s.value.address) && Tracked(m, s.value)
          && Find(m.slots, s.value.address) == i)
  }

  lemma ForeignOpKept(a: Ask, m: Mem, op: MemOp, i: int, s: Option<Slot>)
    requires Ready(a, m, i, s) && Foreign(a, op)
    ensures Kept(a, m, Apply(m, op), i, s, m.stage)
  {
    var r := Apply(m, op);
    assert OnlyAt(a, r.slots, i) by { ForeignSlots(a, m, op, i); }
    assert Holds(a, r.bytes) by { ForeignBytes(a, m, op); }
    if s.Some? {
      ForeignTracked(a, m, op, i, s.value);
    }
    PlainOpFields(m, op);
  }

  lemma PlainOpFields(m: Mem, op: MemOp)
    requires op.DoRead? || op.DoWrite? || op.Poll?
    ensures var r := Apply(m, op);
      r.cycle == m.cycle && r.readLatency == m.readLatency && r.issued <= m.issued + {m.stage} && r.stage == m.stage
  {
  }

  lemma ForeignTracked(a: Ask, m: Mem, op: MemOp, i: int, s: Slot)
    requires Ready(a, m, i, Some(s)) && Foreign(a, op)
    ensures Tracked(Apply(m, op), s) && Find(Apply(m, op).slots, s.address) == i
  {
    ApplyKeepsTracked(m, op, s);
    ForeignSlots(a, m, op, i);
    ForeignAddresses(a, m, op, i);
    FindIs(Apply(m, op).slots, s.address, i);
  }

  lemma ForeignSlots(a: Ask, m: Mem, op: MemOp, i: int)
    requires OnlyAt(a, m.slots, i) && Foreign(a, op)
    ensures OnlyAt(a, Apply(m, op).slots, i)
    ensures 0 <= i < |m.slots| && m.slots[i].op != Free && a.Mine(m.slots[i].address) ==>
        Apply(m, op).slots[i] == m.slots[i]
  {
  }

  lemma ForeignAddresses(a: Ask, m: Mem, op: MemOp, i: int)
    requires Foreign(a, op)
    ensures forall j :: 0 <= j < |m.slots| && a.Mine(Apply(m, op).slots[j].address) ==>
      Apply(m, op).slots[j].address == m.slots[j].address
  {
  }

  lemma SpliceKeepsWord(bytes: seq<byte>, x: nat, data: seq<byte>, at: nat)
    requires x + |data| <= |bytes| && (x + |data| <= at || at + 4 <= x)
    ensures WordAt(Splice(bytes, x, data), at) == WordAt(bytes, at)
  {
    if at + 4 <= |bytes| {
      assert Splice(bytes, x, data)[at..at + 4] == bytes[at..at + 4];
    }
  }

  lemma ForeignBytes(a: Ask, m: Mem, op: MemOp)
    requires Holds(a, m.bytes) && Foreign(a, op)
    ensures Holds(a, Apply(m, op).bytes)
  {
    if op.DoWrite? {
      WriteBytes(m, op.address, op.value, op.size);
      if Apply(m, op).bytes != m.bytes {
        SpliceKeepsWord(m.bytes, op.address, op.value[..op.size], a.FirstAt());
        SpliceKeepsWord(m.bytes, op.address, op.value[..op.size], a.SecondAt());
      }
    } else {
      assert Apply(m, op).bytes == m.bytes;
    }
  }

  lemma {:induction false} ForeignRunKept(a: Ask, m: Mem, ops: seq<MemOp>, i: int, s: Option<Slot>)
    requires Ready(a, m, i, s) && AllForeign(a, ops)
    ensures Kept(a, m, Run(m, ops), i, s, m.stage)
    decreases |ops|
  {
    if ops != [] {
      ForeignOpKept(a, m, ops[0], i, s);
      ForeignRunKept(a, Apply(m, ops[0]), ops[1..], i, s);
    }
  }

  // ---------------------------------------------------------------- one presentation

  /** The walk's own state between presentations: its request, or what it holds. */
  ghost predicate InWalk(a: Ask, t: Table, m: Mem, status: byte, end: nat) {
    && t.Valid()
    && (status == START || status == WAIT_FIRST || status == HELD || status == WAIT_SECOND || status == INVALID)
    && (status == START ==> !Hits(t, a.va))
    && (status == HELD || status == WAIT_SECOND || status == INVALID ==> t.cachedSecond == a.first)
    && (status == WAIT_SECOND ==> EntryValid(a.first))
    && var s := Request(a, status, end);
       var i := if s.Some? then Find(m.slots, s.value.address) else -1;
       Ready(a, m, i, s)
  }

  function Request(a: Ask, status: byte, end: nat): Option<Slot> {
    if status == WAIT_FIRST then Some(Slot(a.FirstAt(), 4, end, Reading))
    else if status == WAIT_SECOND then Some(Slot(a.SecondAt(), 4, end, Reading))
    else None
  }

  /** A presentation with this status reads a page-table word; with the others it only polls. */
  predicate Issues(status: byte) {
    status == START || status == HELD || status == INVALID
  }

  /** Presentations still needed, the one that finishes included. */
  function Remaining(status: byte, end: nat, cycle: nat, latency: nat): int {
    if status == START then 2 * latency + 2
    else if status == WAIT_FIRST then Ahead(end, cycle) + latency + 2
    else if status == HELD || status == INVALID then latency + 1
    else Ahead(end, cycle) + 1
  }

  /** The same for any words: a walk with an invalid first word ends when it would read the second. */
  function Left(a: Ask, status: byte, end: nat, cycle: nat, latency: nat): int {
    if EntryValid(a.first) then Remaining(status, end, cycle, latency)
    else if status == START then latency + 2
    else if status == WAIT_FIRST then Ahead(end, cycle) + 2
    else 1
  }

  function Ahead(end: nat, cycle: nat): nat {
    if end > cycle then end - cycle else 0
  }

  /** Between a presentation and the end of its cycle: the walk's slot is its live request,
      or one just completed that waits for retirement. */
  ghost predicate InCycle(a: Ask, t: Table, m: Mem, status: byte, end: nat, i: int, own: Option<Slot>) {
    && t.Valid() && Ready(a, m, i, own)
    && (status == WAIT_FIRST || status == HELD || status == WAIT_SECOND || status == INVALID)
    && (status == HELD || status == WAIT_SECOND || status == INVALID ==> t.cachedSecond == a.first)
    && (status == WAIT_SECOND ==> EntryValid(a.first))
    && (Request(a, status, end).Some? ==> own == Request(a, status, end) && m.cycle < end)
    && (Request(a, status, end).None? && own.Some? ==> own.value.op == Completed)
    && (own.None? ==> i == -1)
  }

  /** A read of one of the walk's words: at latency 0 its value, otherwise a tracked request. */
  lemma WalkRead(a: Ask, m: Mem, address: nat, word: nat) returns (i: int)
    requires Ready(a, m, -1, None) && a.Mine(address) && WordAt(m.bytes, address) == Some(word)
    requires m.stage in {Fetch, Access} && m.stage !in m.issued && FirstFree(m.slots) < MAX_PENDING
    ensures var r := Read(m, address, 4);
      && r.mem.Valid() && r.mem.cycle == m.cycle && r.mem.stage == m.stage && r.mem.issued == m.issued + {m.stage}
      && r.mem.readLatency == m.readLatency
      && (m.readLatency == 0 ==> r.done && |r.fill| == 4 && U32(r.fill) == word && i == -1)
      && (m.readLatency > 0 ==>
            && !r.done && Find(r.mem.slots, address) == i
            && Tracked(r.mem, Slot(address, 4, m.cycle + m.readLatency, Reading)))
      && OnlyAt(a, r.mem.slots, i)
  {
    i := -1;
    if m.readLatency > 0 {
      var m1 := m.(readCounter := m.readCounter + 1, readBytes := m.readBytes + 4, issued := m.issued + {m.stage});
      assert Fresh(m.slots, address);
      AddTracks(m1, address, 4, Reading);
      i := FirstFree(m.slots);
      FindIs(Read(m, address, 4).mem.slots, address, i);
    }
  }

  /** A poll of the walk's request: done, with the word, from its end cycle on. */
  lemma WalkPoll(a: Ask, m: Mem, s: Slot, word: nat)
    requires Ready(a, m, Find(m.slots, s.address), Some(s)) && s.op == Reading && s.size == 4
    requires WordAt(m.bytes, s.address) == Some(word)
    ensures var r := Status(m, s.address);
      var i := Find(m.slots, s.address);
      && r.mem.Valid() && r.mem.cycle == m.cycle && r.mem.stage == m.stage && r.mem.issued == m.issued
      && r.mem.readLatency == m.readLatency
      && (r.done <==> s.endCycle <= m.cycle)
      && (r.done ==>
            && |r.fill| == 4 && U32(r.fill) == word && Tracked(r.mem, s.(op := Completed))
            && Find(r.mem.slots, s.address) == i)
      && (!r.done ==> r.mem == m)
      && OnlyAt(a, r.mem.slots, i)
  {
    var i := Find(m.slots, s.address);
    FindIs(Status(m, s.address).mem.slots, s.address, i);
  }

  /** What one presentation does, `left` presentations before the walk's end: it moves to the next phase, or
      finishes with the frame of the second-level word, or aborts when not admitted, or says that a word is
      invalid and leaves the table alone. */
  ghost predicate Progress(a: Ask, t: Table, m: Mem, left: int, r: Walk, end: nat, i: int, own: Option<Slot>)
    requires t.Valid()
  {
    && left >= 1
    && (left > 1 ==>
          && r.Walk? && InCycle(a, r.table, r.mem, r.status, end, i, own) && r.table.entries == t.entries
          && r.status != INVALID && r.mem.cycle == m.cycle && r.mem.readLatency == m.readLatency
          && Left(a, r.status, end, m.cycle + 1, m.readLatency) == left - 1)
    && (left == 1 && !Mapped(a) ==>
          && r.Walk? && r.status == INVALID && InCycle(a, r.table, r.mem, INVALID, end, i, own)
          && r.table.entries == t.entries && r.mem.cycle == m.cycle && r.mem.readLatency == m.readLatency)
    && (left == 1 && Mapped(a) && Admitted(a.va) ==>
          && r.Walk? && r.status == START && r.output == Physical(Frame(a.second), a.va)
          && r.table.entries == t.entries[TableIndex(a.va) := Entry(true, Frame(a.second), a.va / 0x2_0000)]
          && r.mem.cycle == m.cycle && r.mem.readLatency == m.readLatency
          && Ready(a, r.mem, i, own) && (own.None? ==> i == -1) && (own.Some? ==> own.value.op == Completed))
    && (left == 1 && Mapped(a) && !Admitted(a.va) ==> r.Abort?)
  }

  lemma FinishIs(a: Ask, t: Table, m: Mem)
    requires t.Valid()
    ensures Tlb.Finish(t, m, a.va, a.second) ==
      if !EntryValid(a.second) then Walk(t, m, INVALID, 0)
      else if Admitted(a.va) then
        Walk(t.(entries := t.entries[TableIndex(a.va) := Entry(true, Frame(a.second), a.va / 0x2_0000)]), m, START,
             Physical(Frame(a.second), a.va))
      else Abort
  {
    if Admitted(a.va) {
      AdmittedIsLow(a.va);
    }
  }

  lemma PresentStart(a: Ask, t: Table, m: Mem, end: nat, junk: Quad) returns (end': nat, i: int, own: Option<Slot>)
    requires InWalk(a, t, m, START, end)
    requires m.stage in {Fetch, Access} && m.stage !in m.issued && FirstFree(m.slots) < MAX_PENDING
    ensures Progress(a, t, m, Left(a, START, end, m.cycle, m.readLatency),
      GetAddress(a.ptbr, t, m, a.va, START, junk), end', i, own)
    ensures end' == m.cycle + m.readLatency
  {
    end' := m.cycle + m.readLatency;
    i := WalkRead(a, m, a.FirstAt(), a.first);
    own := if m.readLatency == 0 then None else Some(Slot(a.FirstAt(), 4, end', Reading));
  }

  lemma PresentWaitFirst(a: Ask, t: Table, m: Mem, end: nat, junk: Quad) returns (end': nat, i: int, own: Option<Slot>)
    requires InWalk(a, t, m, WAIT_FIRST, end)
    ensures Progress(a, t, m, Left(a, WAIT_FIRST, end, m.cycle, m.readLatency),
      GetAddress(a.ptbr, t, m, a.va, WAIT_FIRST, junk), end', i, own)
    ensures end' == end
  {
    end' := end;
    var s := Slot(a.FirstAt(), 4, end, Reading);
    i := Find(m.slots, s.address);
    WalkPoll(a, m, s, a.first);
    own := Some(s.(op := if end <= m.cycle then Completed else Reading));
  }

  /** The first word held, or an earlier end with an invalid word: the second word is read, if the first is valid. */
  lemma PresentHeld(a: Ask, t: Table, m: Mem, status: byte, end: nat, junk: Quad)
    returns (end': nat, i: int, own: Option<Slot>)
    requires InWalk(a, t, m, status, end) && (status == HELD || status == INVALID)
    requires m.stage in {Fetch, Access} && m.stage !in m.issued && FirstFree(m.slots) < MAX_PENDING
    ensures Progress(a, t, m, Left(a, status, end, m.cycle, m.readLatency),
      GetAddress(a.ptbr, t, m, a.va, status, junk), end', i, own)
    ensures end' == m.cycle + m.readLatency
  {
    end' := m.cycle + m.readLatency;
    if EntryValid(a.first) {
      i := WalkRead(a, m, a.SecondAt(), a.second);
      FinishIs(a, t, Read(m, a.SecondAt(), 4).mem);
      own := if m.readLatency == 0 then None else Some(Slot(a.SecondAt(), 4, end', Reading));
    } else {
      i, own := -1, None;
    }
  }

  lemma PresentWaitSecond(a: Ask, t: Table, m: Mem, end: nat, junk: Quad) returns (end': nat, i: int, own: Option<Slot>)
    requires InWalk(a, t, m, WAIT_SECOND, end)
    ensures Progress(a, t, m, Left(a, WAIT_SECOND, end, m.cycle, m.readLatency),
      GetAddress(a.ptbr, t, m, a.va, WAIT_SECOND, junk), end', i, own)
    ensures end' == end
  {
    end' := end;
    var s := Slot(a.SecondAt(), 4, end, Reading);
    i := Find(m.slots, s.address);
    WalkPoll(a, m, s, a.second);
    FinishIs(a, t, Status(m, s.address).mem);
    own := Some(s.(op := if end <= m.cycle then Completed else Reading));
  }

  lemma Present(a: Ask, t: Table, m: Mem, status: byte, end: nat, junk: Quad)
    returns (end': nat, i: int, own: Option<Slot>)
    requires InWalk(a, t, m, status, end)
    requires Issues(status) ==> m.stage in {Fetch, Access} && m.stage !in m.issued && FirstFree(m.slots) < MAX_PENDING
    ensures Progress(a, t, m, Left(a, status, end, m.cycle, m.readLatency),
      GetAddress(a.ptbr, t, m, a.va, status, junk), end', i, own)
    ensures end' == if Issues(status) then m.cycle + m.readLatency else end
  {
    if status == START {
      end', i, own := PresentStart(a, t, m, end, junk);
    } else if status == WAIT_FIRST {
      end', i, own := PresentWaitFirst(a, t, m, end, junk);
    } else if status == HELD || status == INVALID {
      end', i, own := PresentHeld(a, t, m, status, end, junk);
    } else {
      end', i, own := PresentWaitSecond(a, t, m, end, junk);
    }
  }

  // ---------------------------------------------------------------- whole walks

  /** The rest of a cycle: calls of the other stage before and after the walk's presentation. */
  datatype Env = Env(other: Stage, before: seq<MemOp>, after: seq<MemOp>, junk: Quad)

  function Before(m: Mem, stage: Stage, e: Env): Mem {
    Run(m.(stage := e.other), e.before).(stage := stage)
  }

  function After(m: Mem, e: Env): Mem {
    EndCycle(Run(m.(stage := e.other), e.after))
  }

  ghost predicate Fits(a: Ask, m: Mem, status: byte, stage: Stage, e: Env) {
    && e.other in {Fetch, Access} && stage in {Fetch, Access} && e.other != stage
    && AllForeign(a, e.before) && AllForeign(a, e.after)
    && (Issues(status) ==> FirstFree(Before(m, stage, e).slots) < MAX_PENDING)
  }

  function WalkCycle(a: Ask, stage: Stage, t: Table, m: Mem, status: byte, e: Env): (r: Walk)
    requires t.Valid()
    ensures r.Walk? ==> r.table.Valid()
  {
    var r := GetAddress(a.ptbr, t, Before(m, stage, e), a.va, status, e.junk);
    if r.Abort? then r else r.(mem := After(r.mem, e))
  }

  lemma BeforeKeepsWalk(a: Ask, t: Table, m: Mem, status: byte, end: nat, stage: Stage, e: Env)
    requires InWalk(a, t, m, status, end) && m.issued == {} && Fits(a, m, status, stage, e)
    ensures var m1 := Before(m, stage, e);
      && InWalk(a, t, m1, status, end) && m1.stage == stage && m1.issued <= {e.other}
      && m1.cycle == m.cycle && m1.readLatency == m.readLatency
  {
    var s := Request(a, status, end);
    var i := if s.Some? then Find(m.slots, s.value.address) else -1;
    ForeignRunKept(a, m.(stage := e.other), e.before, i, s);
  }

  /** The rest of a cycle: a live request stays, a completed one retires. */
  lemma AfterKeepsReady(a: Ask, m: Mem, i: int, own: Option<Slot>, e: Env)
    requires Ready(a, m, i, own) && (own.None? ==> i == -1) && AllForeign(a, e.after)
    ensures var m2 := After(m, e);
      && (if own.Some? && own.value.Live() then Ready(a, m2, i, own) else Ready(a, m2, -1, None))
      && m2.issued == {} && m2.cycle == m.cycle + 1 && m2.readLatency == m.readLatency
  {
    ForeignRunKept(a, m.(stage := e.other), e.after, i, own);
    TickKeepsReady(a, Run(m.(stage := e.other), e.after), i, own);
  }

  lemma TickKeepsReady(a: Ask, m: Mem, i: int, own: Option<Slot>)
    requires Ready(a, m, i, own) && (own.None? ==> i == -1)
    ensures if own.Some? && own.value.Live() then Ready(a, EndCycle(m), i, own) else Ready(a, EndCycle(m), -1, None)
  {
    var after := EndCycle(m).slots;
    assert forall j :: 0 <= j < |after| ==> after[j] == Retired(m.slots[j]);
    if own.Some? && own.value.Live() {
      ApplyKeepsTracked(m, Tick, own.value);
      FindIs(after, own.value.address, i);
    }
  }

  lemma AfterKeepsWalk(a: Ask, t: Table, m: Mem, status: byte, end: nat, i: int, own: Option<Slot>, e: Env)
    requires InCycle(a, t, m, status, end, i, own) && AllForeign(a, e.after)
    ensures var m2 := After(m, e);
      && InWalk(a, t, m2, status, end) && m2.issued == {}
      && m2.cycle == m.cycle + 1 && m2.readLatency == m.readLatency
  {
    AfterKeepsReady(a, m, i, own, e);
  }

  /** One cycle of a walk, the other stage's traffic included. */
  lemma CycleStep(a: Ask, stage: Stage, t: Table, m: Mem, status: byte, end: nat, e: Env) returns (end': nat)
    requires InWalk(a, t, m, status, end) && m.issued == {} && Fits(a, m, status, stage, e)
    ensures var r := WalkCycle(a, stage, t, m, status, e);
      var left := Left(a, status, end, m.cycle, m.readLatency);
      && left >= 1
      && (left > 1 ==>
            && r.Walk? && r.status != START && r.status != HIT && r.status != INVALID
            && Left(a, r.status, end', r.mem.cycle, r.mem.readLatency) == left - 1)
      && (left > 1 || !Mapped(a) ==>
            && r.Walk? && r.table.entries == t.entries && InWalk(a, r.table, r.mem, r.status, end')
            && r.mem.issued == {} && r.mem.readLatency == m.readLatency && r.mem.cycle == m.cycle + 1)
      && (left == 1 && !Mapped(a) ==> r.status == INVALID)
      && (left == 1 && Mapped(a) && Admitted(a.va) ==>
            && r.Walk? && r.status == START && r.output == Physical(Frame(a.second), a.va)
            && r.table.entries == t.entries[TableIndex(a.va) := Entry(true, Frame(a.second), a.va / 0x2_0000)])
      && (left == 1 && Mapped(a) && !Admitted(a.va) ==> r.Abort?)
  {
    var m1 := Before(m, stage, e);
    BeforeKeepsWalk(a, t, m, status, end, stage, e);
    var i, own;
    end', i, own := Present(a, t, m1, status, end, e.junk);
    if Left(a, status, end, m.cycle, m.readLatency) > 1 || !Mapped(a) {
      var r := GetAddress(a.ptbr, t, m1, a.va, status, e.junk);
      AfterKeepsWalk(a, r.table, r.mem, r.status, end', i, own, e);
    }
  }

  /** Presenting the address once a cycle with the status last returned. */
  function WalkRun(a: Ask, stage: Stage, w: Walk, envs: seq<Env>): Walk
    requires w.Walk? ==> w.table.Valid()
    decreases |envs|
  {
    if envs == [] || w.Abort? then w
    else WalkRun(a, stage, WalkCycle(a, stage, w.table, w.mem, w.status, envs[0]), envs[1..])
  }

  ghost predicate RunFits(a: Ask, stage: Stage, w: Walk, envs: seq<Env>)
    requires w.Walk? ==> w.table.Valid()
    decreases |envs|
  {
    envs == [] || w.Abort? ||
    (Fits(a, w.mem, w.status, stage, envs[0])
     && RunFits(a, stage, WalkCycle(a, stage, w.table, w.mem, w.status, envs[0]), envs[1..]))
  }

  /** How a walk of these words ends, from entries `before`. */
  predicate EndsAs(a: Ask, before: seq<Entry>, r: Walk) {
    if !Mapped(a) then r.Walk? && r.status == INVALID && r.table.entries == before
    else if !Admitted(a.va) then r.Abort?
    else r.Walk? && r.status == START && r.output == Physical(Frame(a.second), a.va)
  }

  lemma {:induction false} RunFinishes(a: Ask, stage: Stage, w: Walk, end: nat, envs: seq<Env>)
    requires w.Walk? && InWalk(a, w.table, w.mem, w.status, end) && w.mem.issued == {}
    requires RunFits(a, stage, w, envs)
    requires 1 <= |envs| <= Left(a, w.status, end, w.mem.cycle, w.mem.readLatency)
    ensures var left := Left(a, w.status, end, w.mem.cycle, w.mem.readLatency);
      var r := WalkRun(a, stage, w, envs);
      && (|envs| < left ==> r.Walk? && r.status != START && r.status != HIT && r.status != INVALID)
      && (|envs| == left ==> EndsAs(a, w.table.entries, r))
    decreases |envs|
  {
    var end' := CycleStep(a, stage, w.table, w.mem, w.status, end, envs[0]);
    var next := WalkCycle(a, stage, w.table, w.mem, w.status, envs[0]);
    if |envs| == 1 {
      assert envs[1..] == [];
    } else {
      RunFinishes(a, stage, next, end', envs[1..]);
    }
  }

  /** The walk refinement. From a miss, in either memory stage and through any foreign traffic, the walk of an admitted
      address whose words lie in memory is unfinished until its last presentation, the (2L + 2)-th, or the (L + 2)-th
      when the first word is invalid. There it gives the pure walk's address, or, when the pure walk finds none, says
      so and leaves the table as it was. */
  lemma WalkRefinesPureWalk(ptbr: nat, va: nat, stage: Stage, t: Table, m: Mem, envs: seq<Env>)
    requires t.Valid() && m.Valid() && m.issued == {} && !Hits(t, va)
    requires Admitted(va) && ptbr < TWO32 && |m.bytes| <= TWO32
    requires var a := AskFor(m.bytes, ptbr, va); Holds(a, m.bytes) && (Mapped(a) ==> TableLow(a.first))
    requires Fresh(m.slots, AskFor(m.bytes, ptbr, va).FirstAt()) && Fresh(m.slots, AskFor(m.bytes, ptbr, va).SecondAt())
    requires RunFits(AskFor(m.bytes, ptbr, va), stage, Walk(t, m, START, 0), envs)
    requires 1 <= |envs| <= if EntryValid(AskFor(m.bytes, ptbr, va).first) then 2 * m.readLatency + 2
        else m.readLatency + 2
    ensures var a := AskFor(m.bytes, ptbr, va);
      var r := WalkRun(a, stage, Walk(t, m, START, 0), envs);
      && r.Walk?
      && (if |envs| < (if EntryValid(a.first) then 2 * m.readLatency + 2 else m.readLatency + 2)
          then r.status != START && r.status != HIT && r.status != INVALID
          else match PureWalk(m.bytes, ptbr, va)
            case Some(pa) => r.status == START && r.output == pa
            case None => r.status == INVALID && r.table.entries == t.entries)
  {
    CodeWalkIsPureIff(m.bytes, ptbr, va);
    RunFinishes(AskFor(m.bytes, ptbr, va), stage, Walk(t, m, START, 0), 0, envs);
  }

  /** How every walk ends, its words wherever the code finds them: with 0x80 and the table as it was exactly when one of
      the words it reads has its valid bit clear, with the end of the program exactly for mapped addresses whose
      two table indices differ, and with an address otherwise. */
  lemma WalkEndsIff(a: Ask, stage: Stage, t: Table, m: Mem, envs: seq<Env>)
    requires t.Valid() && m.Valid() && m.issued == {} && !Hits(t, a.va) && Holds(a, m.bytes)
    requires Fresh(m.slots, a.FirstAt()) && Fresh(m.slots, a.SecondAt())
    requires |envs| == (if EntryValid(a.first) then 2 * m.readLatency + 2 else m.readLatency + 2)
    requires RunFits(a, stage, Walk(t, m, START, 0), envs)
    ensures var r := WalkRun(a, stage, Walk(t, m, START, 0), envs);
      && (r.Walk? && r.status == INVALID && r.table.entries == t.entries <==> !Mapped(a))
      && (r.Abort? <==> Mapped(a) && !Admitted(a.va))
      && (r.Walk? && r.status == START <==> Mapped(a) && Admitted(a.va))
  {
    RunFinishes(a, stage, Walk(t, m, START, 0), 0, envs);
  }

  /** A second word that does not lie in memory is not read: the walk goes by what the unset local holds, and answers
      exactly when that looks like a valid entry. */
  lemma RefusedWordIsJunk(ptbr: nat, t: Table, m: Mem, va: nat, status: byte, junk: Quad)
    requires t.Valid() && (status == HELD || status == INVALID) && EntryValid(t.cachedSecond) && Admitted(va)
    requires WordAt(m.bytes, SecondAddress(t.cachedSecond, va)).None?
    ensures var r := GetAddress(ptbr, t, m, va, status, junk);
      && r.Walk? && r.mem == m && (r.status == START || r.status == INVALID)
      && (r.status == START <==> junk[3] >= 128)
  {
    assert Overlay(junk, [0]) == [0] + junk[1..];
    TopByte([0] + junk[1..]);
  }

  lemma TopByte(q: Quad)
    ensures EntryValid(U32(q)) <==> q[3] >= 128
  {
  }

  // ---------------------------------------------------------------- coherence of the table

  /** Every hit gives the address a fresh walk would give. */
  ghost predicate Coherent(t: Table, bytes: seq<byte>, ptbr: nat)
    requires t.Valid()
  {
    forall va :: 0 <= va < TWO32 && Hits(t, va) && PureWalk(bytes, ptbr, va).Some? ==>
      Some(Physical(t.entries[TableIndex(va)].physicalPage, va)) == PureWalk(bytes, ptbr, va)
  }

  /** The page entries of a superpage agree on everything but the page within it. */
  ghost predicate SuperpagesAgree(bytes: seq<byte>, ptbr: nat) {
    forall va, vb | 0 <= va < TWO32 && 0 <= vb < TWO32 && va / 0x4000 == vb / 0x4000
                    && PureWalk(bytes, ptbr, va).Some? && PureWalk(bytes, ptbr, vb).Some? ::
      PureWalk(bytes, ptbr, va).value - va % 0x4000 == PureWalk(bytes, ptbr, vb).value - vb % 0x4000
  }

  /** They agree on whether they are valid, too. */
  ghost predicate SuperpagesWhole(bytes: seq<byte>, ptbr: nat) {
    forall va, vb | 0 <= va < TWO32 && 0 <= vb < TWO32 && va / 0x4000 == vb / 0x4000 ::
      PureWalk(bytes, ptbr, va).Some? ==> PureWalk(bytes, ptbr, vb).Some?
  }

  /** Whatever hits the table has a translation. */
  ghost predicate Backed(t: Table, bytes: seq<byte>, ptbr: nat)
    requires t.Valid()
  {
    forall va :: 0 <= va < TWO32 && Hits(t, va) ==> PureWalk(bytes, ptbr, va).Some?
  }

  ghost predicate SameTables(b1: seq<byte>, b2: seq<byte>, ptbr: nat) {
    forall va {:trigger PureWalk(b2, ptbr, va)} :: 0 <= va < TWO32 ==> PureWalk(b1, ptbr, va) == PureWalk(b2, ptbr, va)
  }

  lemma SuperpageOf(va: nat)
    ensures va / 0x4000 == va / 0x2_0000 * 8 + TableIndex(va)
  {
  }

  /** Whoever hits the entry filled for `va` lies in its superpage. */
  lemma FilledEntryHit(bytes: seq<byte>, ptbr: nat, va: nat, vb: nat, frame: nat)
    requires SuperpagesAgree(bytes, ptbr) && va < TWO32 && vb < TWO32
    requires TableIndex(va) == TableIndex(vb) && va / 0x2_0000 == vb / 0x2_0000
    requires PureWalk(bytes, ptbr, va) == Some(Physical(frame, va)) && PureWalk(bytes, ptbr, vb).Some?
    ensures Some(Physical(frame, vb)) == PureWalk(bytes, ptbr, vb)
  {
    SuperpageOf(va);
    SuperpageOf(vb);
    assert PureWalk(bytes, ptbr, va).value - va % 0x4000 == PureWalk(bytes, ptbr, vb).value - vb % 0x4000;
  }

  lemma FilledEntryCoherent(t: Table, t': Table, bytes: seq<byte>, ptbr: nat, va: nat)
    requires t.Valid() && t'.Valid() && Coherent(t, bytes, ptbr) && SuperpagesAgree(bytes, ptbr)
    requires Admitted(va) && ptbr < TWO32 && |bytes| <= TWO32 && PureWalk(bytes, ptbr, va).Some?
    requires t'.entries == t.entries[TableIndex(va) :=
      Entry(true, Frame(AskFor(bytes, ptbr, va).second), va / 0x2_0000)]
    ensures Coherent(t', bytes, ptbr)
  {
    AskIsPureWalk(bytes, ptbr, va);
    AdmittedIsLow(va);
    forall vb | 0 <= vb < TWO32 && Hits(t', vb) && PureWalk(bytes, ptbr, vb).Some?
      ensures Some(Physical(t'.entries[TableIndex(vb)].physicalPage, vb)) == PureWalk(bytes, ptbr, vb)
    {
      if TableIndex(vb) == TableIndex(va) {
        FilledEntryHit(bytes, ptbr, va, vb, Frame(AskFor(bytes, ptbr, va).second));
      } else {
        assert Hits(t, vb);
      }
    }
  }

  lemma FilledEntryBacked(t: Table, t': Table, bytes: seq<byte>, ptbr: nat, va: nat, frame: nat)
    requires t.Valid() && t'.Valid() && Backed(t, bytes, ptbr) && SuperpagesWhole(bytes, ptbr)
    requires va < TWO32 && PureWalk(bytes, ptbr, va).Some?
    requires t'.entries == t.entries[TableIndex(va) := Entry(true, frame, va / 0x2_0000)]
    ensures Backed(t', bytes, ptbr)
  {
    forall vb | 0 <= vb < TWO32 && Hits(t', vb) ensures PureWalk(bytes, ptbr, vb).Some? {
      if TableIndex(vb) == TableIndex(va) {
        SuperpageOf(va);
        SuperpageOf(vb);
      } else {
        assert Hits(t, vb);
      }
    }
  }

  lemma SameEntriesBacked(t: Table, t': Table, bytes: seq<byte>, ptbr: nat)
    requires t.Valid() && t'.Valid() && t'.entries == t.entries && Backed(t, bytes, ptbr)
    ensures Backed(t', bytes, ptbr)
  {
    forall va | 0 <= va < TWO32 && Hits(t', va) ensures PureWalk(bytes, ptbr, va).Some? {
      assert Hits(t, va);
    }
  }

  /** The user of a table: no walk in progress when `status` is START, else one for `va`. */
  datatype Session = Session(table: Table, mem: Mem, va: nat, status: byte)

  /** A cycle: the address presented when no walk is in progress, and the other stage's traffic. */
  datatype Input = Input(va: nat, env: Env)

  function Presented(x: Session, i: Input): nat {
    if x.status == START then i.va else x.va
  }

  function Answer(ptbr: nat, stage: Stage, x: Session, i: Input): (r: Walk)
    requires x.table.Valid()
    ensures r.Walk? ==> r.table.Valid()
  {
    WalkCycle(AskFor(x.mem.bytes, ptbr, Presented(x, i)), stage, x.table, x.mem, x.status, i.env)
  }

  function Next(x: Session, i: Input, r: Walk): Session
    requires r.Walk?
  {
    Session(r.table, r.mem, Presented(x, i), if r.status == HIT then START else r.status)
  }

  predicate HitsAtOnce(x: Session, va: nat)
    requires x.table.Valid()
  {
    x.status == START && Hits(x.table, va)
  }

  /** A cycle the walk can deal with: its words lie in memory, and there is a free slot and they are fresh when it reads
      them. Whether they are valid and whether the address is admitted is left open, and so is everything about an
      address that hits, when the superpages are valid as a whole. */
  ghost predicate Permitted(ptbr: nat, stage: Stage, x: Session, i: Input)
    requires x.table.Valid()
  {
    var va := Presented(x, i);
    var a := AskFor(x.mem.bytes, ptbr, va);
    && (if HitsAtOnce(x, va) then SuperpagesWhole(x.mem.bytes, ptbr) || PureWalk(x.mem.bytes, ptbr, va).Some?
        else
          && Holds(a, x.mem.bytes) && (Mapped(a) ==> TableLow(a.first)) && Fits(a, x.mem, x.status, stage, i.env)
          && (x.status == START ==> Fresh(x.mem.slots, a.FirstAt()) && Fresh(x.mem.slots, a.SecondAt())))
    && (Answer(ptbr, stage, x, i).Walk? ==> SameTables(x.mem.bytes, Answer(ptbr, stage, x, i).mem.bytes, ptbr))
  }

  /** A valid entry lies at the place its virtual page names. */
  ghost predicate Placed(t: Table)
    requires t.Valid()
  {
    forall i :: 0 <= i < 8 && t.entries[i].valid ==> t.entries[i].virtualPage == i
  }

  ghost predicate SessionInv(ptbr: nat, x: Session) {
    && x.table.Valid() && x.mem.Valid() && x.mem.issued == {} && ptbr < TWO32 && |x.mem.bytes| <= TWO32
    && Placed(x.table) && Coherent(x.table, x.mem.bytes, ptbr) && SuperpagesAgree(x.mem.bytes, ptbr)
    && (SuperpagesWhole(x.mem.bytes, ptbr) ==> Backed(x.table, x.mem.bytes, ptbr))
    && (x.status != START ==>
          exists end :: InWalk(AskFor(x.mem.bytes, ptbr, x.va), x.table, x.mem, x.status, end))
  }

  /** Every call keeps valid entries in their places, whatever it is asked and whatever memory holds, and
      every address it answers, from the table or at the end of a walk, lies below 1 MB. */
  lemma AnswersAreLow(ptbr: nat, t: Table, m: Mem, va: nat, status: byte, junk: Quad)
    requires t.Valid() && Placed(t)
    ensures var r := GetAddress(ptbr, t, m, va, status, junk);
      r.Walk? ==> Placed(r.table) && (r.status == HIT || r.status == START ==> Admitted(va) && va < 0x10_0000)
  {
    if Admitted(va) {
      AdmittedIsLow(va);
    }
    if status == START && Hits(t, va) {
      assert t.entries[TableIndex(va)].virtualPage == TableIndex(va);
    } else {
      UpdateIsPlaced(ptbr, t, m, va, status, junk);
    }
  }

  lemma FinishIsPlaced(t: Table, m: Mem, va: nat, word: nat)
    requires t.Valid() && Placed(t)
    ensures var r := Tlb.Finish(t, m, va, word); r.Walk? ==>
        Placed(r.table) && (r.status == START ==> Admitted(va)) && r.status != HIT
  {
    if Admitted(va) {
      AdmittedIsLow(va);
    }
  }

  lemma UpdateIsPlaced(ptbr: nat, t: Table, m: Mem, va: nat, status: byte, junk: Quad)
    requires t.Valid() && Placed(t)
    ensures var r := Update(ptbr, t, m, va, status, junk);
      r.Walk? ==> Placed(r.table) && (r.status == START ==> Admitted(va)) && r.status != HIT
  {
    if status != WAIT_FIRST && status != START && EntryValid(t.cachedSecond) {
      var second := SecondAddress(t.cachedSecond, va);
      var r := if status == WAIT_SECOND then Status(m, second) else Read(m, second, 4);
      FinishIsPlaced(t, r.mem, va, U32(Overlay(junk, r.fill)));
    }
  }

  lemma CycleMem(a: Ask, stage: Stage, t: Table, m: Mem, status: byte, e: Env)
    requires t.Valid() && m.Valid() && WalkCycle(a, stage, t, m, status, e).Walk?
    ensures var r := WalkCycle(a, stage, t, m, status, e).mem;
      r.Valid() && r.issued == {} && |r.bytes| == |m.bytes|
  {
    RunKeepsSize(m.(stage := e.other), e.before);
    var w := GetAddress(a.ptbr, t, Before(m, stage, e), a.va, status, e.junk);
    assert w.mem.bytes == Before(m, stage, e).bytes && |w.mem.slots| == |m.slots|;
    RunKeepsSize(w.mem.(stage := e.other), e.after);
  }

  lemma TablesSame(t: Table, b1: seq<byte>, b2: seq<byte>, ptbr: nat)
    requires t.Valid() && Coherent(t, b1, ptbr) && SuperpagesAgree(b1, ptbr) && SameTables(b1, b2, ptbr)
    ensures Coherent(t, b2, ptbr) && SuperpagesAgree(b2, ptbr)
  {
  }

  lemma BackedSame(t: Table, b1: seq<byte>, b2: seq<byte>, ptbr: nat)
    requires t.Valid() && SameTables(b1, b2, ptbr) && (SuperpagesWhole(b1, ptbr) ==> Backed(t, b1, ptbr))
    ensures SuperpagesWhole(b2, ptbr) ==> Backed(t, b2, ptbr)
  {
    if SuperpagesWhole(b2, ptbr) {
      forall va, vb | 0 <= va < TWO32 && 0 <= vb < TWO32 && va / 0x4000 == vb / 0x4000 && PureWalk(b1, ptbr, va).Some?
        ensures PureWalk(b1, ptbr, vb).Some?
      {
        assert PureWalk(b2, ptbr, va).Some? && PureWalk(b2, ptbr, vb).Some?;
      }
    }
  }

  /** The address presented was translated rightly and is low, or has no translation, or the program ended because
      it was not admitted, or the walk goes on. */
  ghost predicate LowOrAbort(bytes: seq<byte>, ptbr: nat, va: nat, r: Walk) {
    match r
    case Abort => !Admitted(va)
    case Walk(_, _, status, output) =>
      && (status == HIT || status == START ==> va < 0x10_0000 && Some(output) == PureWalk(bytes, ptbr, va))
      && (status == INVALID && Admitted(va) ==> PureWalk(bytes, ptbr, va).None?)
  }

  /** One permitted cycle keeps the table coherent, and whatever it answers is the pure walk's answer. */
  lemma SessionStep(ptbr: nat, stage: Stage, x: Session, i: Input)
    requires SessionInv(ptbr, x) && Permitted(ptbr, stage, x, i)
    ensures var r := Answer(ptbr, stage, x, i);
      && LowOrAbort(x.mem.bytes, ptbr, Presented(x, i), r)
      && (r.Walk? ==> SessionInv(ptbr, Next(x, i, r)))
  {
    var va := Presented(x, i);
    var a := AskFor(x.mem.bytes, ptbr, va);
    var r := Answer(ptbr, stage, x, i);
    if Admitted(va) && !HitsAtOnce(x, va) {
      CodeWalkIsPureIff(x.mem.bytes, ptbr, va);
    }
    AnswersAreLow(ptbr, x.table, Before(x.mem, stage, i.env), va, x.status, i.env.junk);
    if x.status == START && Hits(x.table, va) {
      assert r.table == x.table;
    } else {
      var end :| x.status != START ==> InWalk(a, x.table, x.mem, x.status, end);
      var end' := CycleStep(a, stage, x.table, x.mem, x.status, end, i.env);
      if r.Walk? && r.status == START {
        FilledEntryCoherent(x.table, r.table, x.mem.bytes, ptbr, va);
        if SuperpagesWhole(x.mem.bytes, ptbr) {
          FilledEntryBacked(x.table, r.table, x.mem.bytes, ptbr, va, Frame(a.second));
        }
      } else if r.Walk? {
        if SuperpagesWhole(x.mem.bytes, ptbr) {
          SameEntriesBacked(x.table, r.table, x.mem.bytes, ptbr);
        }
        assert Holds(a, r.mem.bytes);
        assert AskFor(r.mem.bytes, ptbr, va) == a;
        assert InWalk(a, r.table, r.mem, r.status, end');
      }
    }
    if r.Walk? {
      assert Coherent(r.table, x.mem.bytes, ptbr);
      CycleMem(a, stage, x.table, x.mem, x.status, i.env);
      TablesSame(r.table, x.mem.bytes, r.mem.bytes, ptbr);
      BackedSame(r.table, x.mem.bytes, r.mem.bytes, ptbr);
    }
  }

  ghost predicate AllPermitted(ptbr: nat, stage: Stage, x: Session, inputs: seq<Input>)
    decreases |inputs|
  {
    inputs == [] ||
    (x.table.Valid() && Permitted(ptbr, stage, x, inputs[0])
     && (Answer(ptbr, stage, x, inputs[0]).Walk? ==>
           AllPermitted(ptbr, stage, Next(x, inputs[0], Answer(ptbr, stage, x, inputs[0])), inputs[1..])))
  }

  /** The last answer of a run, which an abort ends, and the address it is for. */
  ghost function LastAnswer(ptbr: nat, stage: Stage, x: Session, inputs: seq<Input>): (Walk, nat)
    requires inputs != [] && AllPermitted(ptbr, stage, x, inputs)
    decreases |inputs|
  {
    var r := Answer(ptbr, stage, x, inputs[0]);
    if |inputs| == 1 || r.Abort? then (r, Presented(x, inputs[0]))
    else LastAnswer(ptbr, stage, Next(x, inputs[0], r), inputs[1..])
  }

  lemma SameTablesAnswer(b1: seq<byte>, b2: seq<byte>, ptbr: nat, va: nat, r: Walk)
    requires SameTables(b1, b2, ptbr) && LowOrAbort(b2, ptbr, va, r)
    ensures LowOrAbort(b1, ptbr, va, r)
  {
    if va < TWO32 {
      assert PureWalk(b2, ptbr, va) == PureWalk(b1, ptbr, va);
    }
  }

  lemma AnswerAfterStep(ptbr: nat, stage: Stage, x: Session, i: Input, va: nat, r: Walk)
    requires x.table.Valid() && Permitted(ptbr, stage, x, i) && Answer(ptbr, stage, x, i).Walk?
    requires LowOrAbort(Next(x, i, Answer(ptbr, stage, x, i)).mem.bytes, ptbr, va, r)
    ensures LowOrAbort(x.mem.bytes, ptbr, va, r)
  {
    SameTablesAnswer(x.mem.bytes, Answer(ptbr, stage, x, i).mem.bytes, ptbr, va, r);
  }

  /** Coherence over runs: while the page tables stay as they are, every answer of every run, hit or
      finished walk, is for an address below 1 MB and is what a fresh pure walk gives, and a run ends
      early only at an address that is not admitted. */
  lemma {:induction false} EveryAnswerIsPureWalk(ptbr: nat, stage: Stage, x: Session, inputs: seq<Input>)
    requires SessionInv(ptbr, x) && inputs != [] && AllPermitted(ptbr, stage, x, inputs)
    ensures var (r, va) := LastAnswer(ptbr, stage, x, inputs); LowOrAbort(x.mem.bytes, ptbr, va, r)
    decreases |inputs|
  {
    SessionStep(ptbr, stage, x, inputs[0]);
    var first := Answer(ptbr, stage, x, inputs[0]);
    if |inputs| > 1 && first.Walk? {
      var y := Next(x, inputs[0], first);
      EveryAnswerIsPureWalk(ptbr, stage, y, inputs[1..]);
      var (r, va) := LastAnswer(ptbr, stage, y, inputs[1..]);
      AnswerAfterStep(ptbr, stage, x, inputs[0], va, r);
    }
  }
}
