/** What the pending table guarantees over whole runs. */
module MemoryProofs {
  import opened Words
  import opened Memory

  // ---------------------------------------------------------------- lookup

  /** No lower slot, stale or live, carries the address of an occupied slot. */
  ghost predicate Lookup(slots: seq<Slot>) {
    forall i, j :: 0 <= j < i < |slots| && slots[i].op != Free ==> slots[j].address != slots[i].address
  }

  /** No occupied slot carries the address. */
  ghost predicate Fresh(slots: seq<Slot>, address: nat) {
    forall i :: 0 <= i < |slots| && slots[i].op != Free ==> slots[i].address != address
  }

  /** A new request keeps the table searchable exactly when its address is
      not in an occupied slot; a completed, not yet retired slot counts. */
  lemma AddKeepsLookupIff(m: Mem, address: nat, size: nat, op: Op)
    requires Lookup(m.slots) && op != Free && FirstFree(m.slots) < |m.slots|
    ensures Lookup(AddPending(m, address, size, op).slots) <==> Fresh(m.slots, address)
  {
    var k := FirstFree(m.slots);
    var after := AddPending(m, address, size, op).slots;
    if Lookup(after) {
      forall i | 0 <= i < |m.slots| && m.slots[i].op != Free ensures m.slots[i].address != address {
        assert i != k && after[i] == m.slots[i];
        assert after[k].address == address && after[k].op != Free;
      }
    }
  }

  /** The failing family is real: a request reissued in the cycle its address completed goes to a later
      slot, is shadowed by the stale one, and is reported done the next cycle, with no data. */
  lemma ReissueInCompletionCycleIsShadowed(m: Mem, a: nat, size: nat, end: nat)
    requires Tracked(m, Slot(a, size, end, Reading)) && end <= m.cycle
    requires Find(m.slots, a) < FirstFree(m.slots) < |m.slots|
    requires m.Proper(a, size, 16) && m.readLatency > 0 && m.stage in {Fetch, Access} && m.stage !in m.issued
    ensures var m1 := EndCycle(Read(Status(m, a).mem, a, size).mem);
      var r := Status(m1, a);
      && m1.slots[FirstFree(m.slots)] == Slot(a, size, m.cycle + m.readLatency, Reading) && m1.cycle == m.cycle + 1
      && r.done && r.fill == []
  {
    var i, k := Find(m.slots, a), FirstFree(m.slots);
    var m0 := Status(m, a).mem;
    assert m0.slots == m.slots[i := m.slots[i].(op := Completed)];
    FirstFreeIs(m0.slots, k);
    var m1 := EndCycle(Read(m0, a, size).mem);
    assert m1.slots[i] == Slot(a, size, end, Free);
    FindIs(m1.slots, a, i);
  }

  lemma FirstFreeIs(slots: seq<Slot>, k: nat)
    requires k < |slots| && slots[k].op == Free && forall j :: 0 <= j < k ==> slots[j].op != Free
    ensures FirstFree(slots) == k
  {
  }

  ghost predicate AddsFresh(m: Mem, op: MemOp) {
    match op
    case DoRead(a, n) => Fresh(m.slots, a)
    case DoWrite(a, v, n) => Fresh(m.slots, a)
    case _ => true
  }

  ghost predicate RunAddsFresh(m: Mem, ops: seq<MemOp>)
    decreases |ops|
  {
    ops == [] || (AddsFresh(m, ops[0]) && RunAddsFresh(Apply(m, ops[0]), ops[1..]))
  }

  lemma ApplyKeepsLookup(m: Mem, op: MemOp)
    requires Lookup(m.slots) && AddsFresh(m, op)
    ensures Lookup(Apply(m, op).slots)
  {
    match op
    case Tick =>
      var after := EndCycle(m).slots;
      assert forall i :: 0 <= i < |after| ==>
        after[i].address == m.slots[i].address && (after[i].op != Free ==> m.slots[i].op != Free);
    case Poll(a) =>
      var i := Find(m.slots, a);
      if i < |m.slots| {
        // A stale slot that is marked completed may have a stale twin below it only if the
        // search had stopped there instead.
        assert forall j :: 0 <= j < i ==> m.slots[j].address != m.slots[i].address;
      }
    case _ =>
  }

  lemma {:induction false} RunKeepsLookup(m: Mem, ops: seq<MemOp>)
    requires Lookup(m.slots) && RunAddsFresh(m, ops)
    ensures Lookup(Run(m, ops).slots)
    decreases |ops|
  {
    if ops != [] {
      ApplyKeepsLookup(m, ops[0]);
      RunKeepsLookup(Apply(m, ops[0]), ops[1..]);
    }
  }

  // ---------------------------------------------------------------- one request, tracked to completion

  /** Searching for the request's address finds this very request. */
  ghost predicate Tracked(m: Mem, s: Slot) {
    var i := Find(m.slots, s.address);
    i < |m.slots| && m.slots[i] == s
  }

  predicate Touches(op: MemOp, address: nat) {
    match op
    case DoRead(a, n) => a == address
    case DoWrite(a, v, n) => a == address
    case Poll(a) => a == address
    case _ => false
  }

  /** Requests to other addresses, polls and cycle ends leave a live request findable,
      and a completed one until the cycle ends. */
  lemma ApplyKeepsTracked(m: Mem, op: MemOp, s: Slot)
    requires Tracked(m, s) && s.op != Free && !Touches(op, s.address)
    requires s.op == Completed ==> op != Tick
    ensures Tracked(Apply(m, op), s)
  {
    var i := Find(m.slots, s.address);
    ApplyKeepsSlots(m, op, s, i);
    FindIs(Apply(m, op).slots, s.address, i);
  }

  lemma ApplyKeepsSlots(m: Mem, op: MemOp, s: Slot, i: nat)
    requires i < |m.slots| && m.slots[i] == s && forall j :: 0 <= j < i ==> m.slots[j].address != s.address
    requires s.op != Free && !Touches(op, s.address) && (s.op == Completed ==> op != Tick)
    ensures var after := Apply(m, op).slots;
      after[i] == s && forall j :: 0 <= j < i ==> after[j].address != s.address
  {
  }

  /** An accepted request is findable as soon as it is issued. */
  lemma AddTracks(m: Mem, address: nat, size: nat, op: Op)
    requires Fresh(m.slots, address) && FirstFree(m.slots) < |m.slots|
    ensures var latency := if op == Writing then m.writeLatency else m.readLatency;
      Tracked(AddPending(m, address, size, op), Slot(address, size, m.cycle + latency, op))
  {
    var k := FirstFree(m.slots);
    var after := AddPending(m, address, size, op).slots;
    FindIs(after, address, k);
  }

  lemma FindIs(slots: seq<Slot>, address: nat, k: nat)
    requires k < |slots| && slots[k].address == address
    requires forall j :: 0 <= j < k ==> slots[j].address != address
    ensures Find(slots, address) == k
  {
  }

  lemma {:induction false} RunKeepsTracked(m: Mem, ops: seq<MemOp>, s: Slot)
    requires Tracked(m, s) && s.Live()
    requires forall i :: 0 <= i < |ops| ==> !Touches(ops[i], s.address)
    ensures Tracked(Run(m, ops), s)
    decreases |ops|
  {
    if ops != [] {
      ApplyKeepsTracked(m, ops[0], s);
      RunKeepsTracked(Apply(m, ops[0]), ops[1..], s);
    }
  }

  /** A read of any size, followed by any traffic to other addresses, is reported complete
      exactly from its issue cycle plus the read latency on, with the bytes memory then holds. */
  lemma ReadCompletesAtLatency(m: Mem, address: nat, size: nat, ops: seq<MemOp>)
    requires m.Proper(address, size, 16) && m.stage in {Fetch, Access} && m.stage !in m.issued
    requires m.readLatency > 0 && Fresh(m.slots, address) && FirstFree(m.slots) < |m.slots|
    requires forall i :: 0 <= i < |ops| ==> !Touches(ops[i], address)
    ensures !Read(m, address, size).done
    ensures var later := Run(Read(m, address, size).mem, ops);
      var r := Status(later, address);
      && (r.done <==> later.cycle >= m.cycle + m.readLatency)
      && (r.done ==> |later.bytes| == |m.bytes| && r.fill == later.bytes[address..address + size])
  {
    var m1 := m.(readCounter := m.readCounter + 1, readBytes := m.readBytes + size, issued := m.issued + {m.stage});
    AddTracks(m1, address, size, Reading);
    var s := Slot(address, size, m.cycle + m.readLatency, Reading);
    RunKeepsTracked(Read(m, address, size).mem, ops, s);
    RunKeepsSize(Read(m, address, size).mem, ops);
  }

  /** An accepted write: the memory it leaves and the request it queues. */
  lemma WriteQueues(m: Mem, address: nat, value: Word, size: nat)
    requires m.Proper(address, size, 8) && m.stage == Access && m.stage !in m.issued && m.writeLatency > 0
    requires Fresh(m.slots, address) && FirstFree(m.slots) < |m.slots|
    ensures var r := Write(m, address, value, size);
      && !r.done && r.mem.bytes == Splice(m.bytes, address, value[..size])
      && Tracked(r.mem, Slot(address, size, m.cycle + m.writeLatency, Writing))
      && r.mem.slots == AddPending(m, address, size, Writing).slots
      && r.mem.issued == m.issued + {Access} && r.mem.cycle == m.cycle && r.mem.stage == m.stage
  {
    var m1 := m.(
      issued := m.issued + {m.stage},
      bytes := Splice(m.bytes, address, value[..size]),
      writeCounter := m.writeCounter + 1,
      writeBytes := m.writeBytes + size);
    AddTracks(m1, address, size, Writing);
  }

  /** The same for a write: its bytes are in memory at once, its completion follows the latency. */
  lemma WriteCompletesAtLatency(m: Mem, address: nat, value: Word, size: nat, ops: seq<MemOp>)
    requires m.Proper(address, size, 8) && m.stage == Access && m.stage !in m.issued
    requires m.writeLatency > 0 && Fresh(m.slots, address) && FirstFree(m.slots) < |m.slots|
    requires forall i :: 0 <= i < |ops| ==> !Touches(ops[i], address)
    ensures var r := Write(m, address, value, size);
      && !r.done && r.mem.bytes == Splice(m.bytes, address, value[..size])
      && (Status(Run(r.mem, ops), address).done <==> Run(r.mem, ops).cycle >= m.cycle + m.writeLatency)
  {
    WriteQueues(m, address, value, size);
    RunKeepsTracked(Write(m, address, value, size).mem, ops, Slot(address, size, m.cycle + m.writeLatency, Writing));
  }

  lemma WriteBytes(m: Mem, address: nat, value: Word, size: nat)
    ensures var r := Write(m, address, value, size).mem.bytes;
      r == m.bytes || (size <= 8 && address + size <= |m.bytes| && r == Splice(m.bytes, address, value[..size]))
  {
  }

  lemma {:induction false} RunKeepsSize(m: Mem, ops: seq<MemOp>)
    ensures |Run(m, ops).bytes| == |m.bytes|
    decreases |ops|
  {
    if ops != [] {
      RunKeepsSize(Apply(m, ops[0]), ops[1..]);
    }
  }

  // ---------------------------------------------------------------- bandwidth

  /** What is charged so far, counting the accesses of the unfinished cycle. */
  ghost predicate Bandwidth(m: Mem) {
    && m.issued <= {Fetch, Access}
    && m.writeCounter <= m.cycle + (if Access in m.issued then 1 else 0)
    && m.readCounter + m.writeCounter <=
         2 * m.cycle + (if Access in m.issued then 1 else 0) + (if Fetch in m.issued then 1 else 0)
    && m.readBytes <= 16 * m.readCounter
    && m.writeBytes <= 8 * m.writeCounter
  }

  lemma {:induction false} RunKeepsBandwidth(m: Mem, ops: seq<MemOp>)
    requires Bandwidth(m)
    ensures Bandwidth(Run(m, ops))
    decreases |ops|
  {
    if ops != [] {
      RunKeepsBandwidth(Apply(m, ops[0]), ops[1..]);
    }
  }

  /** From power-on, whatever calls the stages make: at a cycle boundary at most one write and
      two accesses per cycle were charged, of at most 16 bytes a read and 8 a write. */
  lemma BandwidthConserved(memorySize: nat, readLatency: nat, writeLatency: nat, ops: seq<MemOp>)
    ensures var m := Apply(Run(InitialMem(memorySize, readLatency, writeLatency), ops), Tick);
      && m.writeCounter <= m.cycle
      && m.readCounter + m.writeCounter <= 2 * m.cycle
      && m.readBytes <= 16 * m.readCounter
      && m.writeBytes <= 8 * m.writeCounter
  {
    RunKeepsBandwidth(InitialMem(memorySize, readLatency, writeLatency), ops);
  }

  // ---------------------------------------------------------------- capacity

  /** The two stages that use memory, each with at most one request outstanding;
      `finished` are the stages that saw a completion in the current cycle. */
  datatype Clients = Clients(mem: Mem, out: map<Stage, nat>, finished: set<Stage>)

  datatype ClientStep =
    | Issue(stage: Stage, write: bool, address: nat, value: Word, size: nat)
    | PollOwn(stage: Stage)
    | Finish

  function Clientele(c: Clients, step: ClientStep): Clients
    requires step.PollOwn? ==> step.stage in c.out
  {
    match step
    case Issue(s, w, a, v, n) =>
      var m := c.mem.(stage := s);
      var r := if w then Write(m, a, v, n) else Read(m, a, n);
      c.(mem := r.mem, out := if r.done then c.out else c.out[s := a])
    case PollOwn(s) =>
      var r := Status(c.mem.(stage := s), c.out[s]);
      if r.done then Clients(r.mem, c.out - {s}, c.finished + {s}) else c.(mem := r.mem)
    case Finish => Clients(EndCycle(c.mem), c.out, {})
  }

  /** A stage issues only after its previous request was reported complete, and only
      to an address no occupied slot has; it polls only its own request. */
  ghost predicate Disciplined(c: Clients, step: ClientStep) {
    match step
    case Issue(s, w, a, v, n) => s in {Fetch, Access} && s !in c.out && Fresh(c.mem.slots, a)
    case PollOwn(s) => s in c.out
    case Finish => true
  }

  function One(b: bool): nat {
    if b then 1 else 0
  }

  function LiveCount(slots: seq<Slot>): nat
    requires |slots| == MAX_PENDING
  {
    One(slots[0].Live()) + One(slots[1].Live()) + One(slots[2].Live()) + One(slots[3].Live())
  }

  function CompletedCount(slots: seq<Slot>): nat
    requires |slots| == MAX_PENDING
  {
    One(slots[0].op == Completed) + One(slots[1].op == Completed) + One(slots[2].op == Completed)
      + One(slots[3].op == Completed)
  }

  ghost predicate OutTracked(c: Clients, s: Stage) {
    s in c.out ==>
      var i := Find(c.mem.slots, c.out[s]);
      && i < |c.mem.slots|
      && c.mem.slots[i].Live()
      && (s in c.finished ==> c.mem.slots[i].endCycle > c.mem.cycle)
  }

  ghost predicate Accounted(c: Clients) {
    && c.mem.Valid()
    && c.out.Keys <= {Fetch, Access}
    && c.finished <= {Fetch, Access}
    && (Fetch in c.out && Access in c.out ==> c.out[Fetch] != c.out[Access])
    && OutTracked(c, Fetch)
    && OutTracked(c, Access)
    && LiveCount(c.mem.slots) <= One(Fetch in c.out) + One(Access in c.out)
    && CompletedCount(c.mem.slots) <= One(Fetch in c.finished) + One(Access in c.finished)
  }

  /** A disciplined issue always finds a free slot. */
  lemma IssueFindsRoom(c: Clients, s: Stage)
    requires Accounted(c) && s in {Fetch, Access} && s !in c.out
    ensures FirstFree(c.mem.slots) < MAX_PENDING
  {
    assert LiveCount(c.mem.slots) + CompletedCount(c.mem.slots) <= 3;
    var t := c.mem.slots;
    assert t[0].op == Free || t[1].op == Free || t[2].op == Free || t[3].op == Free;
  }

  lemma StepKeepsAccounted(c: Clients, step: ClientStep)
    requires Accounted(c) && Disciplined(c, step)
    ensures Accounted(Clientele(c, step))
  {
    match step
    case Issue(s, w, a, v, n) => IssueKeepsAccounted(c, s, w, a, v, n);
    case PollOwn(s) => PollKeepsAccounted(c, s);
    case Finish => FinishKeepsAccounted(c);
  }

  lemma IssueKeepsAccounted(c: Clients, s: Stage, w: bool, a: nat, v: Word, n: nat)
    requires Accounted(c) && Disciplined(c, Issue(s, w, a, v, n))
    ensures Accounted(Clientele(c, Issue(s, w, a, v, n)))
  {
    IssueFindsRoom(c, s);
    var r := Clientele(c, Issue(s, w, a, v, n));
    if r.mem.slots != c.mem.slots {
      var latency := if w then c.mem.writeLatency else c.mem.readLatency;
      var slot := Slot(a, n, c.mem.cycle + latency, if w then Writing else Reading);
      AddKeepsAccounted(c, s, slot, r);
    }
  }

  lemma AddKeepsAccounted(c: Clients, s: Stage, slot: Slot, r: Clients)
    requires Accounted(c) && s in {Fetch, Access} && s !in c.out && Fresh(c.mem.slots, slot.address)
    requires slot.Live() && slot.endCycle > c.mem.cycle
    requires FirstFree(c.mem.slots) < MAX_PENDING
    requires r.mem.slots == c.mem.slots[FirstFree(c.mem.slots) := slot] && r.mem.cycle == c.mem.cycle
    requires r.out == c.out[s := slot.address] && r.finished == c.finished
    ensures Accounted(r)
  {
    var k := FirstFree(c.mem.slots);
    FindIs(r.mem.slots, slot.address, k);
    var other := if s == Fetch then Access else Fetch;
    if other in c.out {
      var i := Find(c.mem.slots, c.out[other]);
      assert i != k && c.mem.slots[i].op != Free;
      FindIs(r.mem.slots, c.out[other], i);
    }
    AddCounts(c.mem.slots, k, slot);
  }

  lemma AddCounts(slots: seq<Slot>, k: nat, slot: Slot)
    requires |slots| == MAX_PENDING && k < MAX_PENDING && slots[k].op == Free && slot.Live()
    ensures LiveCount(slots[k := slot]) == LiveCount(slots) + 1
    ensures CompletedCount(slots[k := slot]) == CompletedCount(slots)
  {
  }

  lemma PollKeepsAccounted(c: Clients, s: Stage)
    requires Accounted(c) && s in c.out
    ensures Accounted(Clientele(c, PollOwn(s)))
  {
    var i := Find(c.mem.slots, c.out[s]);
    var r := Clientele(c, PollOwn(s));
    if c.mem.slots[i].endCycle <= c.mem.cycle {
      assert s !in c.finished;
      CompleteCounts(c.mem.slots, i);
      var other := if s == Fetch then Access else Fetch;
      if other in c.out {
        var j := Find(c.mem.slots, c.out[other]);
        FindIs(r.mem.slots, c.out[other], j);
      }
    } else {
      assert r.mem.slots == c.mem.slots;
    }
  }

  lemma CompleteCounts(slots: seq<Slot>, i: nat)
    requires |slots| == MAX_PENDING && i < MAX_PENDING && slots[i].Live()
    ensures var after := slots[i := slots[i].(op := Completed)];
      LiveCount(after) == LiveCount(slots) - 1 && CompletedCount(after) == CompletedCount(slots) + 1
  {
  }

  lemma FinishKeepsAccounted(c: Clients)
    requires Accounted(c)
    ensures Accounted(Clientele(c, Finish))
  {
    var slots := Clientele(c, Finish).mem.slots;
    RetireCounts(c.mem.slots, slots);
    FinishKeepsOut(c, Fetch);
    FinishKeepsOut(c, Access);
  }

  lemma FinishKeepsOut(c: Clients, s: Stage)
    requires c.mem.Valid() && OutTracked(c, s)
    ensures OutTracked(Clientele(c, Finish), s)
  {
    if s in c.out {
      FindIs(Clientele(c, Finish).mem.slots, c.out[s], Find(c.mem.slots, c.out[s]));
    }
  }

  lemma RetireCounts(slots: seq<Slot>, after: seq<Slot>)
    requires |slots| == MAX_PENDING && |after| == MAX_PENDING
    requires forall j :: 0 <= j < MAX_PENDING ==> after[j] == Retired(slots[j])
    ensures LiveCount(after) == LiveCount(slots) && CompletedCount(after) == 0
  {
  }

  ghost predicate AllDisciplined(c: Clients, steps: seq<ClientStep>)
    decreases |steps|
  {
    steps == [] || (Disciplined(c, steps[0]) && AllDisciplined(Clientele(c, steps[0]), steps[1..]))
  }

  function RunClients(c: Clients, steps: seq<ClientStep>): Clients
    requires AllDisciplined(c, steps)
    decreases |steps|
  {
    if steps == [] then c else RunClients(Clientele(c, steps[0]), steps[1..])
  }

  /** Four slots always suffice: in any disciplined run, a stage without an outstanding
      request that issues one finds a free slot, even in the cycle of a completion. */
  lemma {:induction false} FourSlotsSuffice(c: Clients, steps: seq<ClientStep>, s: Stage)
    requires Accounted(c) && AllDisciplined(c, steps)
    requires s in {Fetch, Access}
    ensures var last := RunClients(c, steps);
      Accounted(last) && (s !in last.out ==> FirstFree(last.mem.slots) < MAX_PENDING)
    decreases |steps|
  {
    if steps == [] {
      if s !in c.out {
        IssueFindsRoom(c, s);
      }
    } else {
      StepKeepsAccounted(c, steps[0]);
      FourSlotsSuffice(Clientele(c, steps[0]), steps[1..], s);
    }
  }

  /** From power-on: no request of a disciplined run is ever dropped. */
  lemma CapacityFromReset(memorySize: nat, readLatency: nat, writeLatency: nat, steps: seq<ClientStep>, s: Stage)
    requires AllDisciplined(Clients(InitialMem(memorySize, readLatency, writeLatency), map[], {}), steps)
    requires s in {Fetch, Access}
    ensures var last := RunClients(Clients(InitialMem(memorySize, readLatency, writeLatency), map[], {}), steps);
      s !in last.out ==> FirstFree(last.mem.slots) < MAX_PENDING
  {
    FourSlotsSuffice(Clients(InitialMem(memorySize, readLatency, writeLatency), map[], {}), steps, s);
  }
}
