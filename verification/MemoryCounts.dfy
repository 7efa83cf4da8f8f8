/** What the memory's counters count, over whole runs. */
module MemoryCounts {
  import opened Words
  import opened Memory

  /** A request the memory performs and counts: whole, aligned, in memory, from a stage that may make it and has
      made none this cycle. */
  predicate Accepted(m: Mem, op: MemOp) {
    match op
    case DoRead(a, n) =>
      n in {1, 2, 4, 8, 16} && a % n == 0 && a + n <= |m.bytes| && m.stage in {Fetch, Access} && m.stage !in m.issued
    case DoWrite(a, v, n) =>
      n in {1, 2, 4, 8} && a % n == 0 && a + n <= |m.bytes| && m.stage == Access && m.stage !in m.issued
    case _ => false
  }

  /** The sizes of the reads, or of the writes, a run performs, in order. */
  function Sizes(m: Mem, ops: seq<MemOp>, ofReads: bool): seq<nat>
    decreases |ops|
  {
    if ops == [] then []
    else (if Accepted(m, ops[0]) && ops[0].DoRead? == ofReads then [ops[0].size] else [])
         + Sizes(Apply(m, ops[0]), ops[1..], ofReads)
  }

  function Sum(ns: seq<nat>): nat {
    if ns == [] then 0 else ns[0] + Sum(ns[1..])
  }

  lemma ApplyCounts(m: Mem, op: MemOp)
    ensures var r := Apply(m, op);
      && r.readCounter == m.readCounter + (if Accepted(m, op) && op.DoRead? then 1 else 0)
      && r.readBytes == m.readBytes + (if Accepted(m, op) && op.DoRead? then op.size else 0)
      && r.writeCounter == m.writeCounter + (if Accepted(m, op) && op.DoWrite? then 1 else 0)
      && r.writeBytes == m.writeBytes + (if Accepted(m, op) && op.DoWrite? then op.size else 0)
  {
  }

  /** Over any run the four counters are the number and the total size of the reads and writes performed. */
  lemma {:induction false} RunCounts(m: Mem, ops: seq<MemOp>)
    ensures var r, rs, ws := Run(m, ops), Sizes(m, ops, true), Sizes(m, ops, false);
      && r.readCounter == m.readCounter + |rs| && r.readBytes == m.readBytes + Sum(rs)
      && r.writeCounter == m.writeCounter + |ws| && r.writeBytes == m.writeBytes + Sum(ws)
    decreases |ops|
  {
    if ops != [] {
      ApplyCounts(m, ops[0]);
      var m1 := Apply(m, ops[0]);
      RunCounts(m1, ops[1..]);
      SizesStep(m, ops, true);
      SizesStep(m, ops, false);
    }
  }

  lemma SizesStep(m: Mem, ops: seq<MemOp>, ofReads: bool)
    requires ops != []
    ensures var rest := Sizes(Apply(m, ops[0]), ops[1..], ofReads);
      var now := Accepted(m, ops[0]) && ops[0].DoRead? == ofReads;
      && |Sizes(m, ops, ofReads)| == |rest| + (if now then 1 else 0)
      && Sum(Sizes(m, ops, ofReads)) == Sum(rest) + (if now then ops[0].size else 0)
  {
    var rest := Sizes(Apply(m, ops[0]), ops[1..], ofReads);
    if Accepted(m, ops[0]) && ops[0].DoRead? == ofReads {
      assert ([ops[0].size] + rest)[1..] == rest;
    } else {
      assert [] + rest == rest;
    }
  }
}
