/** The pipeline gets on: when decode issues, when an execution flushes, and how many instructions a run executes. */
module PipelineFlow {
  import opened Pipeline
  import opened PipelineProofs

  type Inputs = seq<(DataOutcome, FetchOutcome)>

  /** The registers an instruction reads, and all it names. */
  function Sources(q: Regs): set<int> {
    {q.rs1, q.rs2} - {-1}
  }

  function Named(q: Regs): set<int> {
    {q.rs1, q.rs2, q.rd} - {-1}
  }

  /** An instruction in D has to wait: for a load in M that names one of its registers, or for the instruction in X,
      which is to write one of its sources, or register 0 when it has only one. */
  predicate Hazard(s: Pipe) {
    var q := DecodeRegs(s.d.instruction);
    || (s.m.readWrite == LOAD && s.m.reg in Named(q))
    || s.x.regs.rd in Sources(q)
    || (|Sources(q)| == 1 && q.rs2 == -1 && s.x.regs.rd == 0)
  }

  /** Decode issues the instruction in D exactly when there is no hazard, for every outcome of the memory system. */
  lemma DecodeIssuesIff(exec: Handlers, s: Pipe, data: DataOutcome, fetch: FetchOutcome)
    requires s.Valid() && s.d.notStalled && s.w.stall == 0
    ensures var x := Cycle(exec, s, data, fetch).x;
      && (x.notStalled <==> !Hazard(s))
      && (x.notStalled ==>
            && x.pc == s.d.pc && x.newPc == s.d.newPc && x.instruction == s.d.instruction
            && x.regs == DecodeRegs(s.d.instruction))
  {
    var q := DecodeRegs(s.d.instruction);
    if q.rs1 != -1 && q.rs2 == -1 {
      assert Sources(q) == {q.rs1};
    }
    if q.rs1 == -1 {
      assert Sources(q) == {};
    }
  }

  /** What is behind an execution is flushed exactly when it was mispredicted. */
  lemma FlushesIff(exec: Handlers, s: Pipe, data: DataOutcome, fetch: FetchOutcome)
    requires s.Valid() && Executes(s) && s.x.instruction != 0
    ensures Cycle(exec, s, data, fetch).m.tainted != 0
      <==> exec(s.x.instruction, s.x.pc, s.x.v1, s.x.v2).nextPc != s.x.newPc
  {
  }

  /** The stall W reports names what is waited for: the cache, the translation of a load or of a store, or, for either,
      an access that the translation used up. */
  lemma StallNames(exec: Handlers, s: Pipe, data: DataOutcome, fetch: FetchOutcome)
    requires s.Valid() && s.w.tainted == 0
    ensures var stall := Cycle(exec, s, data, fetch).w.stall;
      var load, store := s.m.readWrite == LOAD, s.m.readWrite == STORE;
      && (stall == 1 <==> (load || store) && data.DataMiss? && data.code != 2)
      && (stall == 2 <==> load && data.DataTlbStall?)
      && (stall == 3 <==> store && data.DataTlbStall?)
      && (stall == 4 <==> load && data.DataMiss? && data.code == 2)
      && (stall == 5 <==> store && data.DataMiss? && data.code == 2)
      && stall <= 5
  {
  }

  /** What an executed instruction asks for is in M after the cycle, at its own pc, and M asks for nothing otherwise. */
  lemma EffectReachesM(exec: Handlers, s: Pipe, data: DataOutcome, fetch: FetchOutcome)
    requires s.Valid() && s.w.stall == 0
    ensures var m := Cycle(exec, s, data, fetch).m;
      var e := if Executes(s) && s.x.instruction != 0 then exec(s.x.instruction, s.x.pc, s.x.v1, s.x.v2).effect
          else NoEffect;
      && m.pc == s.x.pc && m.wasStalled == 0
      && (m.readWrite == 0 <==> e.NoEffect?)
      && (m.readWrite == 3 <==> e.WriteReg?) && (e.WriteReg? ==> e == WriteReg(m.reg, m.value))
      && (m.readWrite == 2 <==> e.LoadMem?) && (e.LoadMem? ==> e == LoadMem(m.reg, m.address, m.size, m.signExtend))
      && (m.readWrite == 1 <==> e.StoreMem?)
      && (e.StoreMem? ==> e == StoreMem(m.address, m.size, m.value) && !m.signExtend)
  {
  }

  // ---------------------------------------------------------------- no hazards

  /** Fetch hits, and the access in M, if there is one, completes. */
  predicate Flows(s: Pipe, i: (DataOutcome, FetchOutcome)) {
    i.1.Fetched? && (s.m.readWrite in {LOAD, STORE} ==> !Stalls(i.0))
  }

  predicate AllFlow(exec: Handlers, s: Pipe, ins: Inputs)
    requires s.Valid()
    decreases |ins|
  {
    ins == [] || (Flows(s, ins[0]) && AllFlow(exec, Cycle(exec, s, ins[0].0, ins[0].1), ins[1..]))
  }

  /** D and X full, and nothing flushed. */
  predicate Full(s: Pipe) {
    s.Valid() && s.d.notStalled && s.x.notStalled && s.m.tainted == 0 && s.w.stall == 0 && s.w.tainted == 0
  }

  /** No cycle of the run has a hazard or a misprediction. */
  predicate Unhindered(exec: Handlers, s: Pipe, ins: Inputs)
    requires s.Valid()
    decreases |ins|
  {
    ins == [] ||
    (!Hazard(s) && !Mispredicts(exec, s) && Unhindered(exec, Cycle(exec, s, ins[0].0, ins[0].1), ins[1..]))
  }

  lemma FullStays(exec: Handlers, s: Pipe, i: (DataOutcome, FetchOutcome))
    requires Full(s) && Flows(s, i) && !Hazard(s) && !Mispredicts(exec, s)
    ensures Full(Cycle(exec, s, i.0, i.1))
  {
    DecodeIssuesIff(exec, s, i.0, i.1);
  }

  /** A full pipeline without hazards and mispredictions executes an instruction in every cycle. */
  lemma {:induction false} OneEachCycle(exec: Handlers, s: Pipe, ins: Inputs)
    requires Full(s) && AllFlow(exec, s, ins) && Unhindered(exec, s, ins)
    ensures |ExecutedPcs(exec, s, ins)| == |ins|
    decreases |ins|
  {
    if ins != [] {
      FullStays(exec, s, ins[0]);
      OneEachCycle(exec, Cycle(exec, s, ins[0].0, ins[0].1), ins[1..]);
    }
  }

  // ---------------------------------------------------------------- any program

  /** Between the cycles of a run without stalls. */
  predicate Going(s: Pipe) {
    s.Valid() && s.w.stall == 0 && s.w.tainted == 0 && s.m.tainted <= 1
  }

  lemma GoingOn(exec: Handlers, s: Pipe, i: (DataOutcome, FetchOutcome))
    requires Going(s) && Flows(s, i)
    ensures var t := Cycle(exec, s, i.0, i.1);
      && Going(t) && t.d.notStalled
      && (!Executes(s) ==> t.m.readWrite == NOP && t.m.tainted == 0)
      && (s.d.notStalled && !t.x.notStalled ==> t.x.regs == NO_REGS)
  {
  }

  /** With nothing on its way to a register, an instruction in D is issued. */
  lemma IssuesAfterBubble(exec: Handlers, s: Pipe, i: (DataOutcome, FetchOutcome))
    requires Going(s) && s.d.notStalled && s.m.readWrite == NOP && s.x.regs == NO_REGS
    ensures Cycle(exec, s, i.0, i.1).x.notStalled
  {
    DecodeIssuesIff(exec, s, i.0, i.1);
  }

  /** The cycles until the next execution, at most. */
  function Wait(s: Pipe): nat {
    if Executes(s) then 0
    else if !s.d.notStalled then 3
    else if s.m.readWrite == NOP && s.x.regs == NO_REGS then 1
    else 2
  }

  lemma WaitShrinks(exec: Handlers, s: Pipe, i: (DataOutcome, FetchOutcome))
    requires Going(s) && Flows(s, i) && Wait(s) > 0
    ensures Wait(Cycle(exec, s, i.0, i.1)) < Wait(s)
  {
    GoingOn(exec, s, i);
    if Wait(s) == 1 {
      IssuesAfterBubble(exec, s, i);
    }
  }

  /** Every three cycles execute an instruction, once the first wait is over. */
  lemma {:induction false} OneInThree(exec: Handlers, s: Pipe, ins: Inputs)
    requires Going(s) && AllFlow(exec, s, ins)
    ensures |ins| <= 3 * |ExecutedPcs(exec, s, ins)| + Wait(s)
    decreases |ins|
  {
    if ins != [] {
      var t := Cycle(exec, s, ins[0].0, ins[0].1);
      GoingOn(exec, s, ins[0]);
      if Wait(s) > 0 {
        WaitShrinks(exec, s, ins[0]);
      }
      OneInThree(exec, t, ins[1..]);
    }
  }

  // ---------------------------------------------------------------- smooth runs

  predicate FetchHits(ins: Inputs) {
    forall k :: 0 <= k < |ins| ==> ins[k].1.Fetched?
  }

  lemma {:induction false} SmoothRunFlows<M>(u: World<M>, s: Pipe, mem: M, ins: Inputs)
    requires HandlersOk(u) && Shape(s) && AllSmooth(u, s, mem, ins) && FetchHits(ins)
    ensures AllFlow(u.exec, s, ins)
    decreases |ins|
  {
    if ins != [] {
      ShapeKept(u, s, ins[0].0, ins[0].1);
      SmoothRunFlows(u, Cycle(u.exec, s, ins[0].0, ins[0].1), NextMem(u, s, mem), ins[1..]);
    }
  }

  /** Whatever the program, its hazards and its mispredictions: in a smooth run in which fetch hits, every three
      cycles execute an instruction, from the fourth on if D starts empty, and the sequential machine gets as far. */
  lemma SmoothRunGetsOn<M>(u: World<M>, s: Pipe, mem: M, ins: Inputs)
    requires HandlersOk(u) && Coherent(u, s, mem) && AllSmooth(u, s, mem, ins) && FetchHits(ins)
    ensures var n := |ExecutedPcs(u.exec, s, ins)|;
      var (t, mem') := SmoothRun(u, s, mem, ins);
      && n >= (if s.d.notStalled then |ins| / 3 else (|ins| - 1) / 3)
      && Abs(u, t, mem') == Steps(u, Abs(u, s, mem), n)
  {
    PipelineRefines(u, s, mem, ins);
    SmoothRunFlows(u, s, mem, ins);
    OneInThree(u.exec, s, ins);
  }
}
