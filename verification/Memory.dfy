/** The split-transaction memory of riscv_sim_framework.c: bytes, latency,
    a table of four pending requests, and one access per stage and cycle. */
module Memory {
  import opened Words

  const MAX_PENDING := 4

  datatype Op = Free | Reading | Writing | Completed

  datatype Slot = Slot(address: nat, size: nat, endCycle: nat, op: Op) {
    predicate Live() {
      op == Reading || op == Writing
    }
  }

  datatype Stage = NoStage | Fetch | Decode | Execute | Access | Writeback

  datatype Mem = Mem(
    bytes: seq<byte>,
    slots: seq<Slot>,
    stage: Stage,
    issued: set<Stage>,
    cycle: nat,
    readCounter: nat,
    readBytes: nat,
    writeCounter: nat,
    writeBytes: nat,
    readLatency: nat,
    writeLatency: nat)
  {
    predicate Valid() {
      |slots| == MAX_PENDING
    }

    /** Neither refused by size, range or alignment. */
    predicate Proper(address: nat, size: nat, limit: nat) {
      size <= limit && size in {1, 2, 4, 8, 16} && address + size <= |bytes| && address % size == 0
    }
  }

  /** `done` is the C return value; `fill` are the bytes copied to *value. */
  datatype Response = Response(mem: Mem, done: bool, fill: seq<byte>)

  // ---------------------------------------------------------------- pending table

  function FirstFree(slots: seq<Slot>): (i: nat)
    ensures i <= |slots|
    ensures i < |slots| ==> slots[i].op == Free
    ensures forall j :: 0 <= j < i ==> slots[j].op != Free
  {
    if |slots| == 0 || slots[0].op == Free then 0
    else
      var r := FirstFree(slots[1..]);
      assert forall j :: 1 <= j < 1 + r ==> slots[j] == slots[1..][j - 1];
      1 + r
  }

  /** The address-only search of memory_status. */
  function Find(slots: seq<Slot>, address: nat): (i: nat)
    ensures i <= |slots|
    ensures i < |slots| ==> slots[i].address == address
    ensures forall j :: 0 <= j < i ==> slots[j].address != address
  {
    if |slots| == 0 || slots[0].address == address then 0
    else
      var r := Find(slots[1..], address);
      assert forall j :: 1 <= j < 1 + r ==> slots[j] == slots[1..][j - 1];
      1 + r
  }

  function AddPending(m: Mem, address: nat, size: nat, op: Op): Mem {
    var i := FirstFree(m.slots);
    if i < |m.slots| then
      var latency := if op == Writing then m.writeLatency else m.readLatency;
      m.(slots := m.slots[i := Slot(address, size, m.cycle + latency, op)])
    else
      m
  }

  function Read(m: Mem, address: nat, size: nat): (r: Response)
    ensures |r.mem.slots| == |m.slots| && r.mem.bytes == m.bytes
  {
    if !m.Proper(address, size, 16) then
      Response(m, true, [0])
    else if m.stage !in {Fetch, Access} || m.stage in m.issued then
      Response(m, true, Zeros(size))
    else
      var m1 := m.(readCounter := m.readCounter + 1, readBytes := m.readBytes + size, issued := m.issued + {m.stage});
      if m.readLatency == 0 then
        Response(m1, true, m.bytes[address..address + size])
      else
        Response(AddPending(m1, address, size, Reading), false, Zeros(size))
  }

  function Write(m: Mem, address: nat, value: Word, size: nat): (r: Response)
    ensures |r.mem.slots| == |m.slots| && |r.mem.bytes| == |m.bytes|
    ensures r.fill == []
  {
    if !m.Proper(address, size, 8) then
      Response(m, true, [])
    else if m.stage != Access || m.stage in m.issued then
      Response(m, true, [])
    else
      var m1 := m.(
        issued := m.issued + {m.stage},
        bytes := Splice(m.bytes, address, value[..size]),
        writeCounter := m.writeCounter + 1,
        writeBytes := m.writeBytes + size);
      if m.writeLatency == 0 then
        Response(m1, true, [])
      else
        Response(AddPending(m1, address, size, Writing), false, [])
  }

  /** The bytes memory_dump copies; none when the range leaves memory. */
  function Dump(bytes: seq<byte>, address: nat, size: nat): seq<byte> {
    if address + size <= |bytes| then bytes[address..address + size] else []
  }

  function Status(m: Mem, address: nat): (r: Response)
    ensures |r.mem.slots| == |m.slots| && r.mem.bytes == m.bytes
  {
    var i := Find(m.slots, address);
    if i < |m.slots| && m.slots[i].endCycle <= m.cycle then
      Response(m.(slots := m.slots[i := m.slots[i].(op := Completed)]), true,
        if m.slots[i].op == Reading then Dump(m.bytes, address, m.slots[i].size) else [])
    else
      Response(m, false, [])
  }

  function Retired(s: Slot): Slot {
    if s.op == Completed then s.(op := Free) else s
  }

  /** The end of a cycle: the counter advances and completed requests retire. */
  function EndCycle(m: Mem): (r: Mem)
    ensures |r.slots| == |m.slots|
  {
    m.(cycle := m.cycle + 1, issued := {},
        slots := seq(|m.slots|, i requires 0 <= i < |m.slots| => Retired(m.slots[i])))
  }

  // ---------------------------------------------------------------- runs

  datatype MemOp =
    | SetStage(stage: Stage)
    | DoRead(address: nat, size: nat)
    | DoWrite(address: nat, value: Word, size: nat)
    | Poll(address: nat)
    | Tick

  function Apply(m: Mem, op: MemOp): (r: Mem)
    ensures |r.slots| == |m.slots|
  {
    match op
    case SetStage(s) => m.(stage := s)
    case DoRead(a, n) => Read(m, a, n).mem
    case DoWrite(a, v, n) => Write(m, a, v, n).mem
    case Poll(a) => Status(m, a).mem
    case Tick => EndCycle(m)
  }

  function Run(m: Mem, ops: seq<MemOp>): (r: Mem)
    ensures |r.slots| == |m.slots|
    decreases |ops|
  {
    if ops == [] then m else Run(Apply(m, ops[0]), ops[1..])
  }

  function InitialMem(memorySize: nat, readLatency: nat, writeLatency: nat): (m: Mem)
    ensures m.Valid()
  {
    Mem(Zeros(memorySize), seq(MAX_PENDING, _ => Slot(0, 0, 0, Free)), NoStage, {}, 0, 0, 0, 0, 0,
      readLatency, writeLatency)
  }
}
