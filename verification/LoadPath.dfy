/** A load that misses everywhere: translation, then cache fill, presented every second cycle.
    It completes with the right bytes in exactly 6 * ceil(L / 2) + 4 cycles. */
module LoadPath {
  import opened Words
  import opened Memory
  import opened MemoryProofs
  import opened Pipeline
  import opened Core
  import Tlb
  import TlbProofs
  import Cache
  import CacheRefinement
  import CacheSessions

  /** The load and what it meets, at the start of a cycle in which it is presented. */
  datatype Trip = Trip(tlb: Tlb.Table, cache: Cache.Table, mem: Mem, m: MReg)

  /** The fetch stage's traffic from one presentation to the next, two cycles later. */
  datatype Gap = Gap(here: seq<MemOp>, next: seq<MemOp>, junk: Quad)

  function PresentLoad(ptbr: nat, s: Trip, g: Gap): DataResult
    requires s.tlb.Valid() && s.cache.Valid()
  {
    DataAccess(ptbr, s.tlb, s.cache, s.mem.(stage := Access), s.m, g.junk)
  }

  function Rest(mem: Mem, ops: seq<MemOp>): Mem {
    EndCycle(Memory.Run(mem.(stage := Fetch), ops))
  }

  /** The next presentation, as the replay of the pipeline makes it. */
  function NextTrip(s: Trip, r: DataResult, g: Gap): Trip
    requires r.DataResult?
  {
    Trip(r.tlb, r.cache, Rest(Rest(r.mem, g.here), g.next), Replay(s.m, r.outcome).(tainted := 1))
  }

  // ---------------------------------------------------------------- the traffic around it

  /** The load's three addresses are its own: the page-table words of `a` and the block at `pa`. */
  ghost predicate Quiet(a: TlbProofs.Ask, pa: nat, op: MemOp) {
    TlbProofs.Foreign(a, op) && !Touches(op, pa) && !op.DoWrite?
  }

  ghost predicate AllQuiet(a: TlbProofs.Ask, pa: nat, ops: seq<MemOp>) {
    forall i :: 0 <= i < |ops| ==> Quiet(a, pa, ops[i])
  }

  /** No occupied slot has the block's address, unless it is one of the walk's. */
  ghost predicate Untouched(a: TlbProofs.Ask, pa: nat, slots: seq<Slot>) {
    a.Mine(pa) || Fresh(slots, pa)
  }

  lemma {:induction false} QuietRun(a: TlbProofs.Ask, pa: nat, m: Mem, ops: seq<MemOp>)
    requires AllQuiet(a, pa, ops)
    ensures Memory.Run(m, ops).bytes == m.bytes
    ensures Untouched(a, pa, m.slots) ==> Untouched(a, pa, Memory.Run(m, ops).slots)
    decreases |ops|
  {
    if ops != [] {
      assert Quiet(a, pa, ops[0]);
      var m1 := Apply(m, ops[0]);
      assert Untouched(a, pa, m.slots) ==> Untouched(a, pa, m1.slots);
      QuietRun(a, pa, m1, ops[1..]);
    }
  }

  lemma QuietRest(a: TlbProofs.Ask, pa: nat, m: Mem, ops: seq<MemOp>)
    requires AllQuiet(a, pa, ops)
    ensures var r := Rest(m, ops);
      && r.bytes == m.bytes && r.issued == {}
      && (Untouched(a, pa, m.slots) ==> Untouched(a, pa, r.slots))
  {
    QuietRun(a, pa, m.(stage := Fetch), ops);
    var m1 := Memory.Run(m.(stage := Fetch), ops);
    assert forall j :: 0 <= j < |m1.slots| ==> EndCycle(m1).slots[j] == Retired(m1.slots[j]);
  }

  lemma RestIsAfter(m: Mem, ops: seq<MemOp>, junk: Quad)
    ensures Rest(m, ops) == TlbProofs.After(m, TlbProofs.Env(Fetch, [], ops, junk))
  {
  }

  lemma QuietIsForeign(a: TlbProofs.Ask, pa: nat, ops: seq<MemOp>)
    requires AllQuiet(a, pa, ops)
    ensures TlbProofs.AllForeign(a, ops)
  {
    forall i | 0 <= i < |ops| ensures TlbProofs.Foreign(a, ops[i]) {
      assert Quiet(a, pa, ops[i]);
    }
  }

  /** A cycle in which the walk is not presented keeps it as it is. */
  lemma RestKeepsReady(a: TlbProofs.Ask, pa: nat, m: Mem, i: int, own: Option<Slot>, ops: seq<MemOp>)
    requires TlbProofs.Ready(a, m, i, own) && (own.None? ==> i == -1) && AllQuiet(a, pa, ops)
    ensures var r := Rest(m, ops);
      && (if own.Some? && own.value.Live() then TlbProofs.Ready(a, r, i, own) else TlbProofs.Ready(a, r, -1, None))
      && r.cycle == m.cycle + 1 && r.readLatency == m.readLatency && r.issued == {} && r.bytes == m.bytes
  {
    QuietIsForeign(a, pa, ops);
    QuietRest(a, pa, m, ops);
    RestIsAfter(m, ops, [0, 0, 0, 0]);
    TlbProofs.AfterKeepsReady(a, m, i, own, TlbProofs.Env(Fetch, [], ops, [0, 0, 0, 0]));
  }

  lemma TwoRestsKeepReady(a: TlbProofs.Ask, pa: nat, m: Mem, i: int, own: Option<Slot>, g: Gap)
    requires TlbProofs.Ready(a, m, i, own) && (own.None? ==> i == -1)
    requires AllQuiet(a, pa, g.here) && AllQuiet(a, pa, g.next)
    ensures var r := Rest(Rest(m, g.here), g.next);
      && (if own.Some? && own.value.Live() then TlbProofs.Ready(a, r, i, own) else TlbProofs.Ready(a, r, -1, None))
      && r.cycle == m.cycle + 2 && r.readLatency == m.readLatency && r.issued == {} && r.bytes == m.bytes
      && (Untouched(a, pa, m.slots) ==> Untouched(a, pa, r.slots))
  {
    RestKeepsReady(a, pa, m, i, own, g.here);
    QuietRest(a, pa, m, g.here);
    QuietRest(a, pa, Rest(m, g.here), g.next);
    if own.Some? && own.value.Live() {
      RestKeepsReady(a, pa, Rest(m, g.here), i, own, g.next);
    } else {
      RestKeepsReady(a, pa, Rest(m, g.here), -1, None, g.next);
    }
  }

  // ---------------------------------------------------------------- the legs of the trip

  datatype Leg = Walking(end: nat) | Translated | Awaiting(end: nat)

  function Half(latency: nat): nat {
    (latency + 1) / 2
  }

  /** Presentations until a request ending at `end` is found complete, that one included. */
  function Polls(end: nat, cycle: nat): nat {
    1 + Half(TlbProofs.Ahead(end, cycle))
  }

  function WalkPresentations(status: byte, end: nat, cycle: nat, latency: nat): nat {
    var c := Half(latency);
    if status == Tlb.START then 2 * c + 2
    else if status == Tlb.WAIT_FIRST then Polls(end, cycle) + c + 1
    else if status == Tlb.HELD then c + 1
    else Polls(end, cycle)
  }

  /** Presentations left, the one that completes the load included. */
  function Left(s: Trip, leg: Leg): nat {
    var c := Half(s.mem.readLatency);
    match leg
    case Walking(end) => WalkPresentations(DataStatus(s.m), end, s.mem.cycle, s.mem.readLatency) + c + 1
    case Translated => c + 1
    case Awaiting(end) => Polls(end, s.mem.cycle)
  }

  /** The load and its translation: where it goes, and what the walk will find. */
  datatype Goal = Goal(a: TlbProofs.Ask, pa: nat, size: nat, flat: seq<byte>) {
    function Request(): CacheSessions.Request { CacheSessions.Load(pa, size) }
  }

  ghost predicate Loading(goal: Goal, s: Trip) {
    && s.tlb.Valid() && s.cache.Valid() && s.cache.kind == Cache.Data && s.mem.Valid() && s.mem.issued == {}
    && s.m.readWrite == LOAD && s.m.address % TWO32 == goal.a.va && s.m.size == goal.size
    && Tlb.Admitted(goal.a.va) && TlbProofs.Mapped(goal.a)
        && goal.pa == Tlb.Physical(Tlb.Frame(goal.a.second), goal.a.va)
  }

  /** The block is not in the cache, and the row it will replace is clean. */
  ghost predicate Uncached(goal: Goal, c: Cache.Table, bytes: seq<byte>) {
    && CacheRefinement.Inv(c, bytes, CacheRefinement.NO_HOLE)
    && CacheSessions.Shapely(c, bytes, goal.Request())
    && CacheRefinement.Flat(c, bytes, CacheRefinement.NO_HOLE) == goal.flat
    && var p := c.Split(goal.pa);
       p.off == 0 && c.Resident(p.tag, p.set_).None? && !c.rows[c.Victim(p.set_)].dirty
  }

  ghost predicate On(goal: Goal, s: Trip, leg: Leg) {
    && Loading(goal, s)
    && match leg
       case Walking(end) =>
         && (s.m.wasStalled == 0 || (s.m.wasStalled == 1 && s.m.stallStatus != Tlb.START))
         && TlbProofs.InWalk(goal.a, s.tlb, s.mem, DataStatus(s.m), end) && DataStatus(s.m) != Tlb.INVALID
         && Uncached(goal, s.cache, s.mem.bytes)
         && Untouched(goal.a, goal.pa, s.mem.slots)
       case Translated =>
         && s.m.wasStalled == 2 && s.m.stallStatus == Tlb.START
         && Tlb.Hits(s.tlb, goal.a.va)
         && s.tlb.entries[Tlb.TableIndex(goal.a.va)].physicalPage == Tlb.Frame(goal.a.second)
         && Uncached(goal, s.cache, s.mem.bytes)
         && Fresh(s.mem.slots, goal.pa)
       case Awaiting(end) =>
         && s.m.wasStalled == 1 && s.m.stallStatus == Tlb.START
         && Tlb.Hits(s.tlb, goal.a.va)
         && s.tlb.entries[Tlb.TableIndex(goal.a.va)].physicalPage == Tlb.Frame(goal.a.second)
         && var i := s.cache.Victim(s.cache.Split(goal.pa).set_);
            var ph := CacheSessions.Filling(goal.Request(), i, end);
            && CacheSessions.SessionInv(s.cache, s.mem, ph)
            && CacheSessions.FlatOf(s.cache, s.mem, ph) == goal.flat
  }

  /** A presentation that asks memory for something: the first, and those after a word or a translation came. */
  predicate Asks(m: MReg) {
    m.wasStalled != 1 || m.stallStatus == Tlb.HELD
  }

  ghost predicate GapOk(goal: Goal, s: Trip, g: Gap) {
    && (Asks(s.m) ==> FirstFree(s.mem.slots) < MAX_PENDING)
    && AllQuiet(goal.a, goal.pa, g.here) && AllQuiet(goal.a, goal.pa, g.next)
  }

  /** A presentation with `left` to go: the last one answers with the flat memory's bytes, the others
      stall and leave the load one presentation closer. */
  ghost predicate Advances(goal: Goal, s: Trip, left: nat, r: DataResult, g: Gap, leg: Leg) {
    && left >= 1 && r.DataResult?
    && (left == 1 ==>
          goal.pa + goal.size <= |goal.flat| && r.outcome == Loaded(goal.flat[goal.pa..goal.pa + goal.size]))
    && (left > 1 ==> Stalls(r.outcome) && On(goal, NextTrip(s, r, g), leg) && Left(NextTrip(s, r, g), leg) == left - 1)
  }

  // ---------------------------------------------------------------- walking

  lemma PollsShrink(end: nat, cycle: nat)
    requires end > cycle
    ensures Polls(end, cycle + 2) == Polls(end, cycle) - 1
  {
  }

  lemma FreshPolls(latency: nat, cycle: nat)
    requires latency > 0
    ensures Polls(cycle + latency, cycle + 2) == Half(latency)
  {
  }

  /** A presentation of the walk uses only the walk's own addresses and writes nothing. */
  lemma WalkUntouched(a: TlbProofs.Ask, pa: nat, t: Tlb.Table, m: Mem, status: byte, end: nat, junk: Quad)
    requires TlbProofs.InWalk(a, t, m, status, end) && Untouched(a, pa, m.slots)
    ensures var r := Tlb.GetAddress(a.ptbr, t, m, a.va, status, junk);
      r.Walk? ==> r.mem.bytes == m.bytes && Untouched(a, pa, r.mem.slots)
  {
  }

  lemma WalkStatuses(a: TlbProofs.Ask, t: Tlb.Table, m: Mem, status: byte, end: nat, junk: Quad)
    requires TlbProofs.InWalk(a, t, m, status, end) && TlbProofs.Mapped(a)
    ensures var r := Tlb.GetAddress(a.ptbr, t, m, a.va, status, junk);
      r.Walk? ==>
        && (status == Tlb.START || status == Tlb.WAIT_FIRST ==> r.status == Tlb.WAIT_FIRST || r.status == Tlb.HELD)
        && (status == Tlb.HELD || status == Tlb.WAIT_SECOND ==> r.status != Tlb.WAIT_FIRST && r.status != Tlb.HELD)
  {
  }

  /** Two cycles on, one presentation fewer is left. */
  lemma CountDown(status: byte, end: nat, status': byte, end': nat, cycle: nat, L: nat)
    requires status == Tlb.START || status == Tlb.WAIT_FIRST || status == Tlb.HELD || status == Tlb.WAIT_SECOND
    requires TlbProofs.Remaining(status, end, cycle, L) > 1
    requires TlbProofs.Remaining(status', end', cycle + 1, L) == TlbProofs.Remaining(status, end, cycle, L) - 1
    requires end' == if status == Tlb.START || status == Tlb.HELD then cycle + L else end
    requires status == Tlb.START || status == Tlb.WAIT_FIRST ==> status' == Tlb.WAIT_FIRST || status' == Tlb.HELD
    requires status == Tlb.HELD || status == Tlb.WAIT_SECOND ==> status' == Tlb.WAIT_SECOND
    requires status' == Tlb.WAIT_FIRST || status' == Tlb.WAIT_SECOND ==> cycle < end'
    ensures WalkPresentations(status', end', cycle + 2, L) == WalkPresentations(status, end, cycle, L) - 1
  {
    if end > cycle { PollsShrink(end, cycle); }
    if L > 0 { FreshPolls(L, cycle); }
  }

  /** A stalled walk replayed two cycles later: the same load, one phase further. */
  lemma ReplayedWalk(goal: Goal, s: Trip, r: Tlb.Walk, end: nat, i: int, own: Option<Slot>, g: Gap)
    requires Loading(goal, s) && Uncached(goal, s.cache, s.mem.bytes) && GapOk(goal, s, g)
    requires r.Walk? && r.table.Valid() && TlbProofs.InCycle(goal.a, r.table, r.mem, r.status, end, i, own)
    requires r.status != Tlb.INVALID
    requires r.mem.bytes == s.mem.bytes && Untouched(goal.a, goal.pa, r.mem.slots)
    ensures var next := NextTrip(s, DataResult(DataTlbStall(r.status), r.table, s.cache, r.mem), g);
      && On(goal, next, Walking(end)) && DataStatus(next.m) == r.status
      && next.mem.cycle == r.mem.cycle + 2 && next.mem.readLatency == r.mem.readLatency
  {
    TwoRestsKeepReady(goal.a, goal.pa, r.mem, i, own, g);
  }

  /** What the memory stage makes of a presentation's translation. */
  function AfterWalk(s: Trip, r: Tlb.Walk): DataResult
    requires r.Walk? && s.cache.Valid()
  {
    if r.status != Tlb.HIT && r.status != Tlb.START then DataResult(DataTlbStall(r.status), r.table, s.cache, r.mem)
    else CacheAnswer(true, r.table,
           Cache.ReadAccess(s.cache, r.mem, r.output, s.m.size, s.m.wasStalled == 1, r.status == Tlb.HIT))
  }

  lemma PresentedWalk(ptbr: nat, s: Trip, g: Gap)
    requires s.tlb.Valid() && s.cache.Valid() && s.m.readWrite == LOAD
    requires Tlb.GetAddress(ptbr, s.tlb, s.mem.(stage := Access), s.m.address % TWO32, DataStatus(s.m), g.junk).Walk?
    ensures PresentLoad(ptbr, s, g) ==
      AfterWalk(s, Tlb.GetAddress(ptbr, s.tlb, s.mem.(stage := Access), s.m.address % TWO32, DataStatus(s.m), g.junk))
  {
  }

  /** An unfinished presentation: where the walk is then, and how many presentations it still needs. */
  lemma WalkMoves(goal: Goal, s: Trip, end: nat, g: Gap) returns (r: Tlb.Walk, end': nat, i: int, own: Option<Slot>)
    requires On(goal, s, Walking(end)) && GapOk(goal, s, g)
    requires TlbProofs.Remaining(DataStatus(s.m), end, s.mem.cycle, s.mem.readLatency) > 1
    ensures r == Tlb.GetAddress(goal.a.ptbr, s.tlb, s.mem.(stage := Access), goal.a.va, DataStatus(s.m), g.junk)
    ensures r.Walk? && r.status != Tlb.HIT && r.status != Tlb.START && r.status != Tlb.INVALID
    ensures TlbProofs.InCycle(goal.a, r.table, r.mem, r.status, end', i, own)
    ensures r.mem.bytes == s.mem.bytes && Untouched(goal.a, goal.pa, r.mem.slots)
    ensures r.mem.cycle == s.mem.cycle && r.mem.readLatency == s.mem.readLatency
    ensures WalkPresentations(r.status, end', s.mem.cycle + 2, s.mem.readLatency)
      == WalkPresentations(DataStatus(s.m), end, s.mem.cycle, s.mem.readLatency) - 1
  {
    var a := goal.a;
    var m := s.mem.(stage := Access);
    var status := DataStatus(s.m);
    assert TlbProofs.InWalk(a, s.tlb, m, status, end);
    end', i, own := TlbProofs.Present(a, s.tlb, m, status, end, g.junk);
    r := Tlb.GetAddress(a.ptbr, s.tlb, m, a.va, status, g.junk);
    WalkStatuses(a, s.tlb, m, status, end, g.junk);
    WalkUntouched(a, goal.pa, s.tlb, m, status, end, g.junk);
    CountDown(status, end, r.status, end', m.cycle, m.readLatency);
  }

  lemma WalkOnward(goal: Goal, s: Trip, end: nat, g: Gap) returns (leg: Leg)
    requires On(goal, s, Walking(end)) && GapOk(goal, s, g)
    requires TlbProofs.Remaining(DataStatus(s.m), end, s.mem.cycle, s.mem.readLatency) > 1
    ensures Advances(goal, s, Left(s, Walking(end)), PresentLoad(goal.a.ptbr, s, g), g, leg)
  {
    var r, end', i, own := WalkMoves(goal, s, end, g);
    ReplayedWalk(goal, s, r, end', i, own, g);
    PresentedWalk(goal.a.ptbr, s, g);
    leg := Walking(end');
  }

  /** A finished walk replayed two cycles later: translated, with the cache still to be read. */
  lemma ReplayedArrival(goal: Goal, s: Trip, r: Tlb.Walk, i: int, own: Option<Slot>, g: Gap)
    requires Loading(goal, s) && Uncached(goal, s.cache, s.mem.bytes) && GapOk(goal, s, g)
    requires r.Walk? && r.table.Valid() && TlbProofs.Ready(goal.a, r.mem, i, own)
    requires (own.None? ==> i == -1) && (own.Some? ==> own.value.op == Completed)
    requires r.table.entries ==
      s.tlb.entries[Tlb.TableIndex(goal.a.va) := Tlb.Entry(true, Tlb.Frame(goal.a.second), goal.a.va / 0x2_0000)]
    requires r.mem.bytes == s.mem.bytes && Untouched(goal.a, goal.pa, r.mem.slots)
    ensures var next := NextTrip(s, DataResult(DataMiss(2), r.table, s.cache, r.mem), g);
      On(goal, next, Translated) && next.mem.readLatency == r.mem.readLatency
  {
    TwoRestsKeepReady(goal.a, goal.pa, r.mem, i, own, g);
  }

  lemma WalkArrives(goal: Goal, s: Trip, end: nat, g: Gap)
    requires On(goal, s, Walking(end)) && GapOk(goal, s, g)
    requires TlbProofs.Remaining(DataStatus(s.m), end, s.mem.cycle, s.mem.readLatency) == 1
    ensures Advances(goal, s, Left(s, Walking(end)), PresentLoad(goal.a.ptbr, s, g), g, Translated)
  {
    var a := goal.a;
    var m := s.mem.(stage := Access);
    var status := DataStatus(s.m);
    assert TlbProofs.InWalk(a, s.tlb, m, status, end);
    var end', i, own := TlbProofs.Present(a, s.tlb, m, status, end, g.junk);
    var r := Tlb.GetAddress(a.ptbr, s.tlb, m, a.va, status, g.junk);
    WalkUntouched(a, goal.pa, s.tlb, m, status, end, g.junk);
    UncachedStalls(goal, s.cache, r.mem, s.m.wasStalled == 1);
    ReplayedArrival(goal, s, r, i, own, g);
    PresentedWalk(a.ptbr, s, g);
  }

  lemma UncachedStalls(goal: Goal, c: Cache.Table, m: Mem, followup: bool)
    requires Uncached(goal, c, m.bytes) && c.Valid()
    ensures Cache.ReadAccess(c, m, goal.pa, goal.size, followup, false) == Cache.Stall(c, m, 2)
  {
  }

  // ---------------------------------------------------------------- filling

  /** The first cache read of the load, translated: at latency 0 its answer, otherwise a wait. */
  lemma FirstRead(goal: Goal, c: Cache.Table, m: Mem)
    requires m.Valid() && Uncached(goal, c, m.bytes) && c.kind == Cache.Data
    requires m.stage == Access && m.issued == {} && FirstFree(m.slots) < MAX_PENDING && Fresh(m.slots, goal.pa)
    ensures var q := goal.Request();
      var r := Cache.ReadAccess(c, m, goal.pa, goal.size, false, true);
      var ph := CacheSessions.Filling(q, c.Victim(c.Split(goal.pa).set_), m.cycle + m.readLatency);
      && goal.pa + goal.size <= |goal.flat|
      && (m.readLatency == 0 ==> r.Done? && r.bytes == goal.flat[goal.pa..goal.pa + goal.size])
      && (m.readLatency > 0 ==>
            && r.Stall? && r.code == 1 && CacheSessions.SessionInv(r.cache, r.mem, ph)
            && CacheSessions.FlatOf(r.cache, r.mem, ph) == goal.flat)
      && (r.Done? || r.Stall?) && r.mem.cycle == m.cycle && r.mem.bytes == m.bytes && r.mem.readLatency == m.readLatency
  {
    var q := goal.Request();
    var p := c.Split(goal.pa);
    CacheSessions.LoadMisses(c, m, q);
    CacheSessions.EvictReadFills(c, m, goal.pa, p.set_, p.set_, p.tag, false);
    CacheSessions.FillStarts(c, m, goal.pa, c.Victim(p.set_));
  }

  lemma NextRead(goal: Goal, c: Cache.Table, m: Mem, end: nat)
    requires c.Valid()
    requires var ph := CacheSessions.Filling(goal.Request(), c.Victim(c.Split(goal.pa).set_), end);
      && CacheSessions.SessionInv(c, m, ph) && CacheSessions.FlatOf(c, m, ph) == goal.flat
    ensures var r := Cache.ReadAccess(c, m, goal.pa, goal.size, true, true);
      && (end <= m.cycle ==>
            r.Done? && goal.pa + goal.size <= |goal.flat| && r.bytes == goal.flat[goal.pa..goal.pa + goal.size])
      && (end > m.cycle ==> r == Cache.Stall(c, m, 1))
  {
    ReadGoesOn(c, m, goal.Request(), end);
    CacheSessions.LoadContinues(c, m, goal.Request(), c.Victim(c.Split(goal.pa).set_), end);
  }

  lemma ReadGoesOn(c: Cache.Table, m: Mem, q: CacheSessions.Request, end: nat)
    requires c.Valid() && q.Load?
    requires CacheSessions.SessionInv(c, m, CacheSessions.Filling(q, c.Victim(c.Split(q.address).set_), end))
    ensures var r := Cache.ReadAccess(c, m, q.address, q.size, true, true);
      (end <= m.cycle ==> r.Done?) && (end > m.cycle ==> r == Cache.Stall(c, m, 1))
  {
    var p := c.Split(q.address);
    CacheSessions.EvictReadFills(c, m, q.address, p.set_, p.set_, p.tag, true);
    CacheSessions.FillContinues(c, m, q.address, c.Victim(p.set_), end);
  }

  /** The traffic of two cycles leaves a fill in flight as it is. */
  lemma RestsKeepFill(goal: Goal, c: Cache.Table, m: Mem, ph: CacheSessions.Phase, g: Gap)
    requires c.Valid() && ph.Filling? && ph.request == goal.Request() && CacheSessions.SessionInv(c, m, ph)
    requires AllQuiet(goal.a, goal.pa, g.here) && AllQuiet(goal.a, goal.pa, g.next)
    ensures var r := Rest(Rest(m, g.here), g.next);
      && CacheSessions.SessionInv(c, r, ph) && CacheSessions.FlatOf(c, r, ph) == CacheSessions.FlatOf(c, m, ph)
      && r.issued == {} && r.cycle == m.cycle + 2 && r.readLatency == m.readLatency
  {
    var slot := Slot(goal.pa, c.BlockBytes(), ph.end, Reading);
    RestKeepsTracked(goal.a, goal.pa, m, slot, g.here);
    RestKeepsTracked(goal.a, goal.pa, Rest(m, g.here), slot, g.next);
  }

  lemma RestKeepsTracked(a: TlbProofs.Ask, pa: nat, m: Mem, slot: Slot, ops: seq<MemOp>)
    requires Tracked(m, slot) && slot.Live() && slot.address == pa && AllQuiet(a, pa, ops)
    ensures var r := Rest(m, ops);
      && Tracked(r, slot) && r.bytes == m.bytes && r.issued == {} && |r.slots| == |m.slots|
      && r.cycle == m.cycle + 1 && r.readLatency == m.readLatency
  {
    forall i | 0 <= i < |ops| ensures !Touches(ops[i], pa) { assert Quiet(a, pa, ops[i]); }
    var m0 := m.(stage := Fetch);
    assert Tracked(m0, slot);
    RunKeepsTracked(m0, ops, slot);
    ApplyKeepsTracked(Memory.Run(m0, ops), Tick, slot);
    QuietRest(a, pa, m, ops);
    QuietClock(a, pa, m0, ops);
  }

  lemma {:induction false} QuietClock(a: TlbProofs.Ask, pa: nat, m: Mem, ops: seq<MemOp>)
    requires AllQuiet(a, pa, ops)
    ensures Memory.Run(m, ops).cycle == m.cycle && Memory.Run(m, ops).readLatency == m.readLatency
    decreases |ops|
  {
    if ops != [] {
      assert Quiet(a, pa, ops[0]);
      QuietClock(a, pa, Apply(m, ops[0]), ops[1..]);
    }
  }

  /** Once translated, the load goes straight to the cache. */
  lemma PresentedHit(goal: Goal, s: Trip, g: Gap)
    requires Loading(goal, s) && DataStatus(s.m) == Tlb.START && Tlb.Hits(s.tlb, goal.a.va)
    requires s.tlb.entries[Tlb.TableIndex(goal.a.va)].physicalPage == Tlb.Frame(goal.a.second)
    ensures PresentLoad(goal.a.ptbr, s, g) == CacheAnswer(true, s.tlb,
      Cache.ReadAccess(s.cache, s.mem.(stage := Access), goal.pa, goal.size, s.m.wasStalled == 1, true))
  {
    PresentedWalk(goal.a.ptbr, s, g);
  }

  lemma TranslatedAdvances(goal: Goal, s: Trip, g: Gap) returns (leg: Leg)
    requires On(goal, s, Translated) && GapOk(goal, s, g)
    ensures Advances(goal, s, Left(s, Translated), PresentLoad(goal.a.ptbr, s, g), g, leg)
  {
    var m := s.mem.(stage := Access);
    FirstRead(goal, s.cache, m);
    PresentedHit(goal, s, g);
    var r := Cache.ReadAccess(s.cache, m, goal.pa, goal.size, false, true);
    var L := m.readLatency;
    leg := Awaiting(m.cycle + L);
    if L > 0 {
      var ph := CacheSessions.Filling(goal.Request(), s.cache.Victim(s.cache.Split(goal.pa).set_), m.cycle + L);
      RestsKeepFill(goal, r.cache, r.mem, ph, g);
      FreshPolls(L, m.cycle);
    }
  }

  lemma AwaitingAdvances(goal: Goal, s: Trip, end: nat, g: Gap)
    requires On(goal, s, Awaiting(end)) && GapOk(goal, s, g)
    ensures Advances(goal, s, Left(s, Awaiting(end)), PresentLoad(goal.a.ptbr, s, g), g, Awaiting(end))
  {
    var m := s.mem.(stage := Access);
    var ph := CacheSessions.Filling(goal.Request(), s.cache.Victim(s.cache.Split(goal.pa).set_), end);
    assert CacheSessions.SessionInv(s.cache, m, ph);
    NextRead(goal, s.cache, m, end);
    PresentedHit(goal, s, g);
    if end > m.cycle {
      RestsKeepFill(goal, s.cache, m, ph, g);
      PollsShrink(end, m.cycle);
    }
  }

  lemma LegAdvances(goal: Goal, s: Trip, leg: Leg, g: Gap) returns (next: Leg)
    requires On(goal, s, leg) && GapOk(goal, s, g)
    ensures Advances(goal, s, Left(s, leg), PresentLoad(goal.a.ptbr, s, g), g, next)
  {
    match leg
    case Walking(end) =>
      if TlbProofs.Remaining(DataStatus(s.m), end, s.mem.cycle, s.mem.readLatency) > 1 {
        next := WalkOnward(goal, s, end, g);
      } else {
        WalkArrives(goal, s, end, g);
        next := Translated;
      }
    case Translated => next := TranslatedAdvances(goal, s, g);
    case Awaiting(end) =>
      AwaitingAdvances(goal, s, end, g);
      next := leg;
  }

  // ---------------------------------------------------------------- the whole trip

  /** The answer of the last of the given presentations; earlier ones must stall. */
  function LastAnswer(ptbr: nat, s: Trip, gaps: seq<Gap>): Option<DataOutcome>
    requires gaps != []
    decreases |gaps|
  {
    if !(s.tlb.Valid() && s.cache.Valid()) then None
    else
      var r := PresentLoad(ptbr, s, gaps[0]);
      if r.DataHalted? then None
      else if |gaps| == 1 then Some(r.outcome)
      else if !Stalls(r.outcome) then None
      else LastAnswer(ptbr, NextTrip(s, r, gaps[0]), gaps[1..])
  }

  ghost predicate GapsOk(goal: Goal, s: Trip, gaps: seq<Gap>)
    decreases |gaps|
  {
    gaps == [] ||
    (GapOk(goal, s, gaps[0]) &&
     (s.tlb.Valid() && s.cache.Valid() && PresentLoad(goal.a.ptbr, s, gaps[0]).DataResult? ==>
        GapsOk(goal, NextTrip(s, PresentLoad(goal.a.ptbr, s, gaps[0]), gaps[0]), gaps[1..])))
  }

  lemma {:induction false} TripCompletes(goal: Goal, s: Trip, leg: Leg, gaps: seq<Gap>)
    requires On(goal, s, leg) && GapsOk(goal, s, gaps) && 1 <= |gaps| <= Left(s, leg)
    ensures var answer := LastAnswer(goal.a.ptbr, s, gaps);
      && answer.Some?
      && (|gaps| < Left(s, leg) ==> Stalls(answer.value))
      && (|gaps| == Left(s, leg) ==>
            goal.pa + goal.size <= |goal.flat| && answer == Some(Loaded(goal.flat[goal.pa..goal.pa + goal.size])))
    decreases |gaps|
  {
    var next := LegAdvances(goal, s, leg, gaps[0]);
    if |gaps| > 1 {
      var r := PresentLoad(goal.a.ptbr, s, gaps[0]);
      TripCompletes(goal, NextTrip(s, r, gaps[0]), next, gaps[1..]);
    }
  }

  /** Load completion. A load that misses both the translation buffer and the cache, presented first in
      cycle t and then every second cycle as the pipeline replays it, stalls in the presentations of
      cycles t, t + 2, ... up to t + 6c + 2 and answers in the one of cycle t + 6c + 4, c = ceil(L / 2),
      with the bytes the flat memory holds at the address the pure walk gives. */
  lemma LoadCompletesOnTime(ptbr: nat, s: Trip, gaps: seq<Gap>, a: TlbProofs.Ask, goal: Goal)
    requires s.m.readWrite == LOAD && s.m.wasStalled == 0 && s.mem.Valid() && s.mem.issued == {}
    requires s.tlb.Valid() && s.cache.Valid() && s.cache.kind == Cache.Data
    requires ptbr < TWO32 && |s.mem.bytes| <= TWO32
    requires var va := s.m.address % TWO32;
      && Tlb.Admitted(va) && !Tlb.Hits(s.tlb, va) && TlbProofs.PureWalk(s.mem.bytes, ptbr, va).Some?
      && a == TlbProofs.AskFor(s.mem.bytes, ptbr, va)
      && goal == Goal(a, TlbProofs.PureWalk(s.mem.bytes, ptbr, va).value, s.m.size,
                      CacheRefinement.Flat(s.cache, s.mem.bytes, CacheRefinement.NO_HOLE))
    requires Uncached(goal, s.cache, s.mem.bytes)
    requires Fresh(s.mem.slots, a.FirstAt()) && Fresh(s.mem.slots, a.SecondAt()) && Fresh(s.mem.slots, goal.pa)
    requires 1 <= |gaps| <= 3 * Half(s.mem.readLatency) + 3 && GapsOk(goal, s, gaps)
    ensures var answer := LastAnswer(ptbr, s, gaps);
      && answer.Some?
      && (|gaps| < 3 * Half(s.mem.readLatency) + 3 ==> Stalls(answer.value))
      && (|gaps| == 3 * Half(s.mem.readLatency) + 3 ==>
            goal.pa + goal.size <= |goal.flat| && answer == Some(Loaded(goal.flat[goal.pa..goal.pa + goal.size])))
  {
    TlbProofs.AskIsPureWalk(s.mem.bytes, ptbr, s.m.address % TWO32);
    assert On(goal, s, Walking(0));
    TripCompletes(goal, s, Walking(0), gaps);
  }
}
