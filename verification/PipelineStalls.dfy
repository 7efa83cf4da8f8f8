/** Pipeline refinement through data-side stalls. A stalled access is replayed from the memory stage
    and its instruction is then fetched and executed once more, so the drained pipeline falls behind the
    sequential machine and catches up when those instructions run again. */
module PipelineStalls {
  import opened Words
  import opened Pipeline
  import opened PipelineProofs

  // ---------------------------------------------------------------- running an access twice

  /** The instruction does not overwrite a register it reads. */
  predicate KeepsSources(i: nat) {
    var q := DecodeRegs(i);
    q.rd == 0 || (q.rd != q.rs1 && q.rd != q.rs2)
  }

  /** The second instruction overwrites neither its own sources nor those of the first. */
  predicate Independent(i1: nat, i2: nat) {
    var q1, q2 := DecodeRegs(i1), DecodeRegs(i2);
    KeepsSources(i2) && (q2.rd == 0 || (q2.rd != q1.rs1 && q2.rd != q1.rs2))
  }

  /** Storing the same bytes twice, with or without another store in between, is storing them the second time. */
  ghost predicate StoresSettle<M(!new)>(u: World<M>) {
    && (forall m, a, n, v :: u.store(u.store(m, a, n, v), a, n, v) == u.store(m, a, n, v))
    && (forall m, a, n, v, a', n', v' ::
          u.store(u.store(u.store(m, a, n, v), a', n', v'), a, n, v) == u.store(u.store(m, a', n', v'), a, n, v))
  }

  /** The effect of the instruction the sequential machine executes next. */
  function EffectAt<M>(u: World<M>, a: Machine<M>): Effect
    requires a.Valid()
  {
    var i := u.code(a.pc);
    var (v1, v2) := OperandsOf(a.regs, DecodeRegs(i));
    if i == 0 then NoEffect else u.exec(i, a.pc, v1, v2).effect
  }

  predicate Accesses(e: Effect) {
    e.LoadMem? || e.StoreMem?
  }

  lemma PerformTwice<M(!new)>(u: World<M>, a: Machine<M>, e: Effect)
    requires StoresSettle(u) && a.Valid() && e != NoEffect
    ensures Perform(u, Perform(u, a, e), e) == Perform(u, a, e)
  {
    if e.WriteReg? || (e.LoadMem? && SizeOk(e.size)) {
      var b := Perform(u, a, e);
      assert b.regs[e.reg % 32 := b.regs[e.reg % 32]] == b.regs;
    }
  }

  /** Operands do not change when a register is written that is not among them. */
  lemma OperandsKept(regs: seq<Word>, q: Regs, r: nat, value: Word)
    requires |regs| == 32 && -1 <= q.rs1 < 32 && -1 <= q.rs2 < 32 && r < 32
    requires r == 0 || (r != q.rs1 && r != q.rs2)
    ensures OperandsOf(WriteRegFile(regs, r, value), q) == OperandsOf(regs, q)
  {
    if q.rs1 != -1 {
      ReadKept(regs, r, value, q.rs1);
    }
    if q.rs2 != -1 {
      ReadKept(regs, r, value, q.rs2);
    }
  }

  lemma ReadKept(regs: seq<Word>, r: nat, value: Word, k: nat)
    requires |regs| == 32 && r < 32 && k < 32 && (r == 0 || r != k)
    ensures ReadReg(WriteRegFile(regs, r, value), k) == ReadReg(regs, k)
  {
  }

  /** The instruction at hand, with its operands, is the same in machines that agree on them. */
  lemma SameOperandsSameStep<M>(u: World<M>, a: Machine<M>, b: Machine<M>)
    requires a.Valid() && b.Valid() && a.pc == b.pc
    requires OperandsOf(a.regs, DecodeRegs(u.code(a.pc))) == OperandsOf(b.regs, DecodeRegs(u.code(a.pc)))
    ensures EffectAt(u, a) == EffectAt(u, b) && Step(u, a).pc == Step(u, b).pc
    ensures Step(u, b) == Perform(u, b, EffectAt(u, a)).(pc := Step(u, a).pc)
  {
  }

  /** A store, or a load that keeps its sources, may run twice. */
  lemma RepeatIsHarmless<M(!new)>(u: World<M>, a: Machine<M>)
    requires HandlersOk(u) && StoresSettle(u) && a.Valid() && Accesses(EffectAt(u, a))
    requires EffectAt(u, a).LoadMem? ==> KeepsSources(u.code(a.pc))
    ensures Step(u, Step(u, a).(pc := a.pc)) == Step(u, a)
    ensures EffectAt(u, Step(u, a).(pc := a.pc)) == EffectAt(u, a)
  {
    var i, e := u.code(a.pc), EffectAt(u, a);
    var (v1, v2) := OperandsOf(a.regs, DecodeRegs(i));
    assert EffectOk(i, u.exec(i, a.pc, v1, v2).effect);
    var b := Step(u, a).(pc := a.pc);
    if e.LoadMem? && SizeOk(e.size) {
      OperandsKept(a.regs, DecodeRegs(i), e.reg, Extended(u.load(a.mem, e.address)[..e.size], e.signExtend));
    }
    SameOperandsSameStep(u, a, b);
    PerformTwice(u, a, e);
    PerformPc(u, Perform(u, a, e), a.pc, e);
  }

  /** The machine has just executed the access at `pc`, whose effect is `e`, and may do so again. */
  ghost predicate JustDone<M>(u: World<M>, b: Machine<M>, pc: nat, e: Effect)
    requires b.Valid()
  {
    Step(u, b.(pc := pc)) == b && EffectAt(u, b.(pc := pc)) == e
  }

  predicate Writes(e: Effect) {
    e.WriteReg? || e.LoadMem?
  }

  /** After a store at `pc`, a register write or a load that is independent of it may be let past, with whatever value
      for its register, and then the two run again. */
  lemma PairIsHarmless<M(!new)>(u: World<M>, b: Machine<M>, pc: nat, store: Effect, v: Word)
    requires HandlersOk(u) && StoresSettle(u) && b.Valid() && JustDone(u, b, pc, store) && store.StoreMem?
    requires Writes(EffectAt(u, b)) && Independent(u.code(pc), u.code(b.pc))
    ensures var c := Perform(u, b, WriteReg(EffectAt(u, b).reg, v));
      && Step(u, c.(pc := pc)) == c.(pc := b.pc)
      && Step(u, c.(pc := b.pc)) == Step(u, b)
  {
    var e := EffectAt(u, b);
    var i := u.code(b.pc);
    var (v1, v2) := OperandsOf(b.regs, DecodeRegs(i));
    assert EffectOk(i, u.exec(i, b.pc, v1, v2).effect);
    var c := Perform(u, b, WriteReg(e.reg, v));
    OperandsKept(b.regs, DecodeRegs(u.code(pc)), e.reg, v);
    OperandsKept(b.regs, DecodeRegs(i), e.reg, v);
    SameOperandsSameStep(u, b.(pc := pc), c.(pc := pc));
    assert Perform(u, c.(pc := pc), store).mem == Perform(u, b.(pc := pc), store).mem;
    SameOperandsSameStep(u, b, c.(pc := b.pc));
    PerformOver(u, b, c, e, v);
    PerformPc(u, c, b.pc, e);
  }

  /** A register written twice holds what was written last. */
  lemma PerformOver<M>(u: World<M>, b: Machine<M>, c: Machine<M>, e: Effect, v: Word)
    requires b.Valid() && Writes(e) && (e.LoadMem? ==> SizeOk(e.size)) && c == Perform(u, b, WriteReg(e.reg, v))
    ensures Perform(u, c, e) == Perform(u, b, e)
  {
    var w := if e.WriteReg? then e.value else Extended(u.load(b.mem, e.address)[..e.size], e.signExtend);
    assert b.regs[e.reg % 32 := v][e.reg % 32 := w] == b.regs[e.reg % 32 := w];
  }

  /** After a store at `pc` and a store behind it that was done first, the two run again. */
  lemma StoresAreHarmless<M(!new)>(u: World<M>, b: Machine<M>, pc: nat, mem: M)
    requires HandlersOk(u) && StoresSettle(u) && b.Valid()
    requires EffectAt(u, b.(pc := pc)).StoreMem? && EffectAt(u, b).StoreMem?
    requires JustDone(u, b, pc, EffectAt(u, b.(pc := pc)))
    requires b.mem == Perform(u, b.(mem := mem), EffectAt(u, b.(pc := pc))).mem
    ensures var older, younger := EffectAt(u, b.(pc := pc)), EffectAt(u, b);
      var c := Perform(u, Perform(u, b.(mem := mem), younger), older);
      && Step(u, c.(pc := pc)) == c.(pc := b.pc)
      && Step(u, c.(pc := b.pc)) == Step(u, b)
  {
    var older, younger := EffectAt(u, b.(pc := pc)), EffectAt(u, b);
    var c := Perform(u, Perform(u, b.(mem := mem), younger), older);
    SameOperandsSameStep(u, b.(pc := pc), c.(pc := pc));
    SameOperandsSameStep(u, b, c.(pc := b.pc));
  }

  // ---------------------------------------------------------------- a stalled access

  /** What gets past a stalled access: only a store that waits for the cache lets its successor through. */
  function GetsPast(exec: Handlers, s: Pipe, data: DataOutcome): Effect
    requires s.Valid()
  {
    if s.m.readWrite == STORE && data.DataMiss? then PendingEffect(ExecuteStage(exec, s).m) else NoEffect
  }

  /** The memory stage reports a stall in the first of two cycles; what gets past it is no store, and completes. */
  ghost predicate Stalled<M>(u: World<M>, s: Pipe, data: DataOutcome, fetch: FetchOutcome, data': DataOutcome,
      fetch': FetchOutcome)
    requires s.Valid()
  {
    var past := GetsPast(u.exec, s, data);
    && Stalls(data) && (s.m.readWrite == LOAD || s.m.readWrite == STORE)
    && !past.StoreMem? && (past.LoadMem? ==> data'.Loaded?)
    && HonestFetch(u, Cycle(u.exec, s, data, fetch), fetch')
  }

  /** What got past, once done: a load has brought its register a value, right or not. */
  function Past(exec: Handlers, s: Pipe, data: DataOutcome, value: Word): Effect
    requires s.Valid()
  {
    var past := GetsPast(exec, s, data);
    if past.LoadMem? then WriteReg(past.reg, value) else past
  }

  /** Two cycles of a stall take the drained machine back to the stalled instruction, with registers
      and memory as if its access, and what got past it, were already done. */
  lemma StallRewinds<M>(u: World<M>, s: Pipe, mem: M, data: DataOutcome, fetch: FetchOutcome, data': DataOutcome,
      fetch': FetchOutcome)
    requires HandlersOk(u) && Coherent(u, s, mem) && Stalled(u, s, data, fetch, data', fetch')
    ensures var t := Cycle(u.exec, Cycle(u.exec, s, data, fetch), data', fetch');
      && Coherent(u, t, mem) && t.m == Replay(s.m, data).(tainted := 1) && !t.x.notStalled
      && Abs(u, t, mem) == Perform(u, Abs(u, s, mem), Past(u.exec, s, data, t.w.value)).(pc := s.m.pc)
  {
    var s1 := Cycle(u.exec, s, data, fetch);
    var t := Cycle(u.exec, s1, data', fetch');
    ShapeKept(u, s, data, fetch);
    ShapeKept(u, s1, data', fetch');
    TrainedKept(u, s);
    if fetch'.Fetched? && u.code(FetchPc(u.exec, s1)) == 0 {
      PredictOk(u, s1.table, FetchPc(u.exec, s1));
    }
    assert NextToExecute(t) == s.m.pc;
    DrainsWithPast(u, s, mem, data, t.w.value, s.m.pc);
  }

  /** Writing a register and the access in M may be drained in either order when the access is a store. */
  lemma DrainsWithPast<M>(u: World<M>, s: Pipe, mem: M, data: DataOutcome, value: Word, pc: nat)
    requires s.Valid() && Shape(s) && !Accesses(Past(u.exec, s, data, value))
    requires (s.m.readWrite == LOAD || s.m.readWrite == STORE)
    ensures var file := Writeback(s.regs, s.w);
      var past := Past(u.exec, s, data, value);
      Perform(u, Perform(u, Machine(pc, file, mem), past), PendingEffect(s.m))
      == Perform(u, Abs(u, s, mem), past).(pc := pc)
  {
  }

  /** An access behind a store that waits for the cache, for every outcome of its own: the store is back in M the cycle
      after, and is presented there exactly when the access completed, or is a store that waits for the cache, too.
      Otherwise it is lost: a cycle later the machine is back at the access, with the store not done. */
  lemma StoreKeptIff<M>(u: World<M>, s: Pipe, mem: M, data: DataOutcome, fetch: FetchOutcome, data': DataOutcome,
                        fetch': FetchOutcome, data'': DataOutcome, fetch'': FetchOutcome)
    requires s.Valid() && s.w.tainted == 0 && s.w.stall == 0 && s.m.readWrite == STORE && data.DataMiss?
    requires Accesses(GetsPast(u.exec, s, data))
    ensures var s1 := Cycle(u.exec, s, data, fetch);
      var s2 := Cycle(u.exec, s1, data', fetch');
      var s3 := Cycle(u.exec, s2, data'', fetch'');
      && s2.m == Replay(s.m, data).(tainted := 1)
      && (s2.w.tainted == 0 <==> !Stalls(data') || (s1.m.readWrite == STORE && data'.DataMiss?))
      && (s2.w.tainted > 0 ==>
            && s3.m == Replay(s1.m, data').(tainted := 1) && FetchPc(u.exec, s2) == s1.m.pc
            && Abs(u, s3, mem).(pc := s1.m.pc)
               == Perform(u, Machine(s1.m.pc, Writeback(s.regs, s.w), mem), GetsPast(u.exec, s, data)))
  {
  }

  // ---------------------------------------------------------------- a store behind a waiting store

  predicate SameStore(m: MReg, a: MReg) {
    && m.readWrite == STORE && a.readWrite == STORE && m.pc == a.pc
    && m.address == a.address && m.size == a.size && m.value == a.value
  }

  /** Two stores take turns: `b` is presented now, `a` comes back after it. */
  ghost predicate TakeTurns<M>(u: World<M>, s: Pipe, a: MReg, b: MReg, file: seq<Word>) {
    && Shape(s) && Trained(u, s.table) && s.w.stall != 0 && s.w.tainted == 0 && !s.w.op && s.regs == file
    && SameStore(s.w.memory, a) && SameStore(s.m, b)
  }

  /** In all turns but the last the store presented waits for the cache; in the last it completes. */
  ghost predicate TurnsOk<M>(u: World<M>, s: Pipe, turns: seq<(DataOutcome, FetchOutcome)>)
    requires s.Valid()
    decreases |turns|
  {
    && turns != []
    && if |turns| == 1 then !Stalls(turns[0].0) && HonestFetch(u, s, turns[0].1)
       else turns[0].0.DataMiss? && TurnsOk(u, Cycle(u.exec, s, turns[0].0, turns[0].1), turns[1..])
  }

  function RunTurns<M>(u: World<M>, s: Pipe, mem: M, turns: seq<(DataOutcome, FetchOutcome)>): (t: (Pipe, M))
    requires s.Valid()
    ensures t.0.Valid()
    decreases |turns|
  {
    if turns == [] then (s, mem)
    else RunTurns(u, Cycle(u.exec, s, turns[0].0, turns[0].1), if Stalls(turns[0].0) then mem
        else NextMem(u, s, mem), turns[1..])
  }

  lemma TurnPasses<M>(u: World<M>, s: Pipe, a: MReg, b: MReg, file: seq<Word>, data: DataOutcome, fetch: FetchOutcome)
    requires HandlersOk(u) && TakeTurns(u, s, a, b, file) && data.DataMiss?
    ensures TakeTurns(u, Cycle(u.exec, s, data, fetch), b, a, file)
  {
    ShapeKept(u, s, data, fetch);
  }

  /** The pipeline right after one of two stores, `b`, was done and the other, `a`, put back into M. */
  ghost predicate TurnsOver<M>(u: World<M>, t: Pipe, mem: M, mem': M, a: MReg, b: MReg, file: seq<Word>) {
    && |file| == 32 && Coherent(u, t, mem') && SameStore(t.m, a) && !t.x.notStalled
    && Abs(u, t, mem') == Perform(u, Perform(u, Machine(a.pc, file, mem), PendingEffect(b)), PendingEffect(a))
  }

  lemma LastTurn<M>(u: World<M>, s: Pipe, mem: M, a: MReg, b: MReg, file: seq<Word>, data: DataOutcome,
      fetch: FetchOutcome)
    requires HandlersOk(u) && TakeTurns(u, s, a, b, file) && |file| == 32 && !Stalls(data) && HonestFetch(u, s, fetch)
    ensures TurnsOver(u, Cycle(u.exec, s, data, fetch), mem, NextMem(u, s, mem), a, b, file)
  {
    ShapeKept(u, s, data, fetch);
    if fetch.Fetched? && u.code(FetchPc(u.exec, s)) == 0 {
      PredictOk(u, s.table, FetchPc(u.exec, s));
    }
  }

  /** However many turns it takes, the pipeline ends up before the store that was not the last to be presented, with
      both done, that one last. */
  lemma {:induction false} TurnsEnd<M>(u: World<M>, s: Pipe, mem: M, a: MReg, b: MReg, file: seq<Word>,
      turns: seq<(DataOutcome, FetchOutcome)>)
    requires HandlersOk(u) && TakeTurns(u, s, a, b, file) && |file| == 32 && TurnsOk(u, s, turns)
    ensures var (t, mem') := RunTurns(u, s, mem, turns);
      if |turns| % 2 == 1 then TurnsOver(u, t, mem, mem', a, b, file) else TurnsOver(u, t, mem, mem', b, a, file)
    decreases |turns|
  {
    if |turns| == 1 {
      LastTurn(u, s, mem, a, b, file, turns[0].0, turns[0].1);
      assert turns[1..] == [];
    } else {
      TurnPasses(u, s, a, b, file, turns[0].0, turns[0].1);
      TurnsEnd(u, Cycle(u.exec, s, turns[0].0, turns[0].1), mem, b, a, file, turns[1..]);
    }
  }

  lemma TurnsBegin<M>(u: World<M>, s: Pipe, mem: M, data: DataOutcome, fetch: FetchOutcome)
    requires HandlersOk(u) && Coherent(u, s, mem) && s.m.readWrite == STORE && data.DataMiss?
    requires GetsPast(u.exec, s, data).StoreMem?
    ensures TakeTurns(u, Cycle(u.exec, s, data, fetch), s.m, ExecuteStage(u.exec, s).m, Writeback(s.regs, s.w))
  {
    ShapeKept(u, s, data, fetch);
    TrainedKept(u, s);
  }

  // ---------------------------------------------------------------- runs with stalls

  datatype Round =
    | Plain(data: DataOutcome, fetch: FetchOutcome)
    | Replayed(data: DataOutcome, fetch: FetchOutcome, data': DataOutcome, fetch': FetchOutcome)
    | Contended(data: DataOutcome, fetch: FetchOutcome, turns: seq<(DataOutcome, FetchOutcome)>)

  function After<M>(u: World<M>, s: Pipe, mem: M, r: Round): (t: (Pipe, M))
    requires s.Valid()
    ensures t.0.Valid()
  {
    match r
    case Plain(data, fetch) => (Cycle(u.exec, s, data, fetch), NextMem(u, s, mem))
    case Replayed(data, fetch, data', fetch') => (Cycle(u.exec, Cycle(u.exec, s, data, fetch), data', fetch'), mem)
    case Contended(data, fetch, turns) => RunTurns(u, Cycle(u.exec, s, data, fetch), mem, turns)
  }

  /** A stalled load keeps its sources; a register write or load that gets past a store is independent of it; a
      store that does takes turns with it. */
  ghost predicate RoundOk<M>(u: World<M>, s: Pipe, mem: M, r: Round)
    requires s.Valid()
  {
    match r
    case Plain(data, fetch) => Smooth(u, s, mem, data, fetch)
    case Replayed(data, fetch, data', fetch') =>
      && Stalled(u, s, data, fetch, data', fetch')
      && (s.m.readWrite == LOAD ==> KeepsSources(u.code(s.m.pc)))
      && (Writes(GetsPast(u.exec, s, data)) ==> Independent(u.code(s.m.pc), u.code(s.x.pc)))
    case Contended(data, fetch, turns) =>
      && s.m.readWrite == STORE && data.DataMiss? && GetsPast(u.exec, s, data).StoreMem?
      && TurnsOk(u, Cycle(u.exec, s, data, fetch), turns)
  }

  function RunRounds<M>(u: World<M>, s: Pipe, mem: M, rounds: seq<Round>): (t: (Pipe, M))
    requires s.Valid()
    ensures t.0.Valid()
    decreases |rounds|
  {
    if rounds == [] then (s, mem)
    else
      var (t, mem') := After(u, s, mem, rounds[0]);
      RunRounds(u, t, mem', rounds[1..])
  }

  ghost predicate AllRoundsOk<M>(u: World<M>, s: Pipe, mem: M, rounds: seq<Round>)
    requires s.Valid()
    decreases |rounds|
  {
    rounds == [] ||
    (RoundOk(u, s, mem, rounds[0])
     && var (t, mem') := After(u, s, mem, rounds[0]);
        AllRoundsOk(u, t, mem', rounds[1..]))
  }

  /** Executions in the smooth cycle of a round. */
  function ExecutionsIn(s: Pipe, r: Round): nat {
    if r.Plain? && Executes(s) then 1 else 0
  }

  /** Instructions executed in the smooth cycles of a run. */
  function Executions<M>(u: World<M>, s: Pipe, mem: M, rounds: seq<Round>): nat
    requires s.Valid()
    decreases |rounds|
  {
    if rounds == [] then 0
    else
      var (t, mem') := After(u, s, mem, rounds[0]);
      ExecutionsIn(s, rounds[0]) + Executions(u, t, mem', rounds[1..])
  }

  function StallCount(rounds: seq<Round>): nat {
    if rounds == [] then 0 else (if rounds[0].Plain? then 0 else 1) + StallCount(rounds[1..])
  }

  /** The access in M can be run again: the pipeline stands right before it, or right after it. */
  ghost predicate Repeatable<M>(u: World<M>, s: Pipe, b: Machine<M>, lag: nat)
    requires b.Valid()
  {
    || (b.pc == s.m.pc && !s.x.notStalled)
    || (lag <= 1 && JustDone(u, b, s.m.pc, PendingEffect(s.m)))
  }

  /** The pipeline stands for the machine `a`, which is `lag` repeated instructions ahead of what it drains to. */
  ghost predicate Follows<M>(u: World<M>, s: Pipe, mem: M, a: Machine<M>, lag: nat) {
    && Coherent(u, s, mem) && a.Valid() && lag <= 2
    && var b := Abs(u, s, mem);
       && StepsTo(u, b, lag, a)
       && ((s.m.readWrite == LOAD && KeepsSources(u.code(s.m.pc))) || s.m.readWrite == STORE ==>
           Repeatable(u, s, b, lag))
  }

  /** Steps of the sequential machine in a round. */
  function Moved(exec: Handlers, s: Pipe, lag: nat, r: Round): nat
    requires s.Valid()
  {
    if lag > 0 then 0
    else match r
      case Plain(_, _) => if Executes(s) then 1 else 0
      case Replayed(data, _, _, _) => if GetsPast(exec, s, data) == NoEffect then 0 else 1
      case Contended(_, _, _) => 1
  }

  function Advance<M>(u: World<M>, s: Pipe, a: Machine<M>, lag: nat, r: Round): (b: Machine<M>)
    requires s.Valid() && a.Valid()
    ensures b.Valid()
  {
    if Moved(u.exec, s, lag, r) == 1 then Step(u, a) else a
  }

  /** What execute hands to M, when it is an access, is the effect of the instruction at M's pc. */
  lemma AccessQueued<M>(u: World<M>, s: Pipe, mem: M, data: DataOutcome, fetch: FetchOutcome)
    requires HandlersOk(u) && Coherent(u, s, mem)
    ensures var m := Cycle(u.exec, s, data, fetch).m;
      var b := Abs(u, s, mem);
      m.readWrite == LOAD || m.readWrite == STORE ==>
        Executes(s) && m.pc == b.pc && EffectAt(u, b) == PendingEffect(m)
  {
  }

  /** What gets past a store is the effect of the instruction the drained machine executes next. */
  lemma PastIsNext<M>(u: World<M>, s: Pipe, mem: M, data: DataOutcome)
    requires HandlersOk(u) && Coherent(u, s, mem) && GetsPast(u.exec, s, data) != NoEffect
    ensures var b := Abs(u, s, mem);
      Executes(s) && s.x.pc == b.pc && EffectAt(u, b) == GetsPast(u.exec, s, data)
  {
  }

  /** An execution is a step of the machine or catches up one instruction; a stall falls back at most two. */
  predicate RoundCounts(exec: Handlers, s: Pipe, lag: nat, r: Round, lag': nat)
    requires s.Valid()
  {
    var moved, ran := Moved(exec, s, lag, r), ExecutionsIn(s, r);
    moved + lag <= ran + lag' && ran + lag' <= moved + lag + (if r.Plain? then 0 else 2)
  }

  /** One step of the drained machine: the sequential one steps along, or is caught up. */
  lemma CatchesUp<M>(u: World<M>, b: Machine<M>, lag: nat, a: Machine<M>)
    requires b.Valid() && a.Valid() && StepsTo(u, b, lag, a)
    ensures if lag == 0 then Step(u, b) == Step(u, a) && StepsTo(u, Step(u, b), 0, Step(u, a))
      else StepsTo(u, Step(u, b), lag - 1, a) && (lag == 1 ==> Step(u, b) == a)
  {
  }

  lemma PlainFollows<M(!new)>(u: World<M>, s: Pipe, mem: M, a: Machine<M>, lag: nat, r: Round) returns (lag': nat)
    requires HandlersOk(u) && StoresSettle(u) && Follows(u, s, mem, a, lag) && r.Plain? && RoundOk(u, s, mem, r)
    ensures var (t, mem') := After(u, s, mem, r);
      Follows(u, t, mem', Advance(u, s, a, lag, r), lag') && RoundCounts(u.exec, s, lag, r, lag')
  {
    var b := Abs(u, s, mem);
    var m := Cycle(u.exec, s, r.data, r.fetch).m;
    lag' := if Executes(s) && lag > 0 then lag - 1 else lag;
    CycleRefines(u, s, mem, r.data, r.fetch);
    CatchesUp(u, b, lag, a);
    AccessQueued(u, s, mem, r.data, r.fetch);
    if (m.readWrite == LOAD && KeepsSources(u.code(m.pc))) || m.readWrite == STORE {
      RepeatIsHarmless(u, b);
    }
  }

  /** A stall that lets nothing past. */
  lemma HeldFollows<M(!new)>(u: World<M>, s: Pipe, mem: M, a: Machine<M>, lag: nat, r: Round) returns (lag': nat)
    requires HandlersOk(u) && StoresSettle(u) && Follows(u, s, mem, a, lag) && r.Replayed? && RoundOk(u, s, mem, r)
    requires GetsPast(u.exec, s, r.data) == NoEffect
    ensures var (t, mem') := After(u, s, mem, r);
      Follows(u, t, mem', Advance(u, s, a, lag, r), lag') && RoundCounts(u.exec, s, lag, r, lag')
  {
    StallRewinds(u, s, mem, r.data, r.fetch, r.data', r.fetch');
    var b := Abs(u, s, mem);
    lag' := if b.pc == s.m.pc && !s.x.notStalled then lag else lag + 1;
    if lag' > lag {
      StepsToBefore(u, b.(pc := s.m.pc), b, lag', lag, a);
    }
  }

  /** The drained machine, two instructions that led to it ahead. */
  lemma TwoBehind<M>(u: World<M>, c: Machine<M>, d: Machine<M>, e: Machine<M>)
    requires c.Valid() && d.Valid() && Step(u, c) == d && Step(u, d) == e
    ensures StepsTo(u, c, 2, e)
  {
    assert StepsTo(u, e, 0, e);
    StepsToBefore(u, d, e, 1, 0, e);
    StepsToBefore(u, c, d, 2, 1, e);
  }

  /** A stall that lets a register write or a load past. */
  lemma PastFollows<M(!new)>(u: World<M>, s: Pipe, mem: M, a: Machine<M>, lag: nat, r: Round) returns (lag': nat)
    requires HandlersOk(u) && StoresSettle(u) && Follows(u, s, mem, a, lag) && r.Replayed? && RoundOk(u, s, mem, r)
    requires GetsPast(u.exec, s, r.data) != NoEffect
    ensures var (t, mem') := After(u, s, mem, r);
      Follows(u, t, mem', Advance(u, s, a, lag, r), lag') && RoundCounts(u.exec, s, lag, r, lag')
  {
    var t := After(u, s, mem, r).0;
    StallRewinds(u, s, mem, r.data, r.fetch, r.data', r.fetch');
    PastIsNext(u, s, mem, r.data);
    var b := Abs(u, s, mem);
    assert lag <= 1 && JustDone(u, b, s.m.pc, PendingEffect(s.m));
    var past := GetsPast(u.exec, s, r.data);
    var v := if past.WriteReg? then past.value else t.w.value;
    PairIsHarmless(u, b, s.m.pc, PendingEffect(s.m), v);
    lag' := 2;
    var c := Perform(u, b, WriteReg(past.reg, v));
    CatchesUp(u, b, lag, a);
    TwoBehind(u, c.(pc := s.m.pc), c.(pc := b.pc), Step(u, b));
  }

  /** Two stores that take turns. */
  lemma TurnsFollow<M(!new)>(u: World<M>, s: Pipe, mem: M, a: Machine<M>, lag: nat, r: Round) returns (lag': nat)
    requires HandlersOk(u) && StoresSettle(u) && Follows(u, s, mem, a, lag) && r.Contended? && RoundOk(u, s, mem, r)
    ensures var (t, mem') := After(u, s, mem, r);
      Follows(u, t, mem', Advance(u, s, a, lag, r), lag') && RoundCounts(u.exec, s, lag, r, lag')
  {
    var b := Abs(u, s, mem);
    var s1 := Cycle(u.exec, s, r.data, r.fetch);
    var younger := ExecuteStage(u.exec, s).m;
    var file := Writeback(s.regs, s.w);
    PastIsNext(u, s, mem, r.data);
    assert lag <= 1 && JustDone(u, b, s.m.pc, PendingEffect(s.m));
    TurnsBegin(u, s, mem, r.data, r.fetch);
    TurnsEnd(u, s1, mem, s.m, younger, file, r.turns);
    CatchesUp(u, b, lag, a);
    if |r.turns| % 2 == 1 {
      lag' := 2;
      StoresAreHarmless(u, b, s.m.pc, mem);
      var c := Perform(u, Perform(u, b.(mem := mem), PendingEffect(younger)), PendingEffect(s.m));
      TwoBehind(u, c.(pc := s.m.pc), c.(pc := b.pc), Step(u, b));
    } else {
      lag' := 1;
      RepeatIsHarmless(u, b);
      StepsToBefore(u, Step(u, b).(pc := b.pc), Step(u, b), 1, 0, Step(u, b));
    }
  }

  lemma RoundFollows<M(!new)>(u: World<M>, s: Pipe, mem: M, a: Machine<M>, lag: nat, r: Round) returns (lag': nat)
    requires HandlersOk(u) && StoresSettle(u) && Follows(u, s, mem, a, lag) && RoundOk(u, s, mem, r)
    ensures var (t, mem') := After(u, s, mem, r);
      Follows(u, t, mem', Advance(u, s, a, lag, r), lag') && RoundCounts(u.exec, s, lag, r, lag')
  {
    if r.Plain? {
      lag' := PlainFollows(u, s, mem, a, lag, r);
    } else if r.Contended? {
      lag' := TurnsFollow(u, s, mem, a, lag, r);
    } else if GetsPast(u.exec, s, r.data) == NoEffect {
      lag' := HeldFollows(u, s, mem, a, lag, r);
    } else {
      lag' := PastFollows(u, s, mem, a, lag, r);
    }
  }

  /** Every execution is one of the n steps or repeats an instruction, at most two of them after each stall. */
  predicate Counted<M>(u: World<M>, s: Pipe, mem: M, lag: nat, rounds: seq<Round>, n: nat, lag': nat)
    requires s.Valid()
  {
    var ran := Executions(u, s, mem, rounds);
    n + lag <= ran + lag' && ran + lag' <= n + lag + 2 * StallCount(rounds)
  }

  lemma CountedByRest<M>(u: World<M>, s: Pipe, mem: M, lag: nat, rounds: seq<Round>, mid: nat, k: nat, lag': nat)
    requires s.Valid() && rounds != [] && RoundCounts(u.exec, s, lag, rounds[0], mid)
    requires var (t, mem') := After(u, s, mem, rounds[0]); Counted(u, t, mem', mid, rounds[1..], k, lag')
    ensures Counted(u, s, mem, lag, rounds, Moved(u.exec, s, lag, rounds[0]) + k, lag')
  {
  }

  lemma FirstRound<M(!new)>(u: World<M>, s: Pipe, mem: M, a: Machine<M>, lag: nat, rounds: seq<Round>)
    returns (s': Pipe, next: M, b: Machine<M>, mid: nat)
    requires HandlersOk(u) && StoresSettle(u) && Follows(u, s, mem, a, lag) && rounds != []
    requires AllRoundsOk(u, s, mem, rounds)
    ensures After(u, s, mem, rounds[0]) == (s', next) && b == Advance(u, s, a, lag, rounds[0])
    ensures Follows(u, s', next, b, mid) && AllRoundsOk(u, s', next, rounds[1..])
    ensures RoundCounts(u.exec, s, lag, rounds[0], mid)
    ensures RunRounds(u, s, mem, rounds) == RunRounds(u, s', next, rounds[1..])
  {
    mid := RoundFollows(u, s, mem, a, lag, rounds[0]);
    s', next := After(u, s, mem, rounds[0]).0, After(u, s, mem, rounds[0]).1;
    b := Advance(u, s, a, lag, rounds[0]);
  }

  /** Refinement through stalls: over every run of smooth cycles and stalled accesses, whatever completes behind a
      waiting store, for any number and length of stalls, the drained pipeline is the sequential machine after n
      steps, or is about to repeat the one or two instructions that led there; every stall costs at most two
      repetitions. */
  lemma {:induction false} StallsRefine<M(!new)>(u: World<M>, s: Pipe, mem: M, a: Machine<M>, lag: nat,
      rounds: seq<Round>)
    returns (n: nat, t: Pipe, mem': M, b: Machine<M>, lag': nat)
    requires HandlersOk(u) && StoresSettle(u) && Follows(u, s, mem, a, lag) && AllRoundsOk(u, s, mem, rounds)
    ensures RunRounds(u, s, mem, rounds) == (t, mem') && StepsTo(u, a, n, b) && Follows(u, t, mem', b, lag')
    ensures Counted(u, s, mem, lag, rounds, n, lag')
    decreases |rounds|
  {
    if rounds == [] {
      n, t, mem', b, lag' := 0, s, mem, a, lag;
    } else {
      var s', next, c, mid := FirstRound(u, s, mem, a, lag, rounds);
      var k;
      k, t, mem', b, lag' := StallsRefine(u, s', next, c, mid, rounds[1..]);
      n := Moved(u.exec, s, lag, rounds[0]) + k;
      CountedByRest(u, s, mem, lag, rounds, mid, k, lag');
      StepsToBefore(u, a, c, n, k, b);
    }
  }
}
