/** Runs of the whole machine refine the sequential machine, from power-on. */
module MachineRuns {
  import opened Words
  import opened Pipeline
  import opened PipelineProofs
  import PipelineStalls
  import Tlb
  import TlbProofs
  import Cache
  import CacheRefinement
  import opened Core
  import opened MachineState
  import opened MachineBehind
  import opened CoreProofs

  type Junk = (Quad, Quad)

  /** A state with what its stages wait for. */
  datatype Live = Live(s: State, fp: Phase, dp: Phase)

  ghost predicate LiveSound(g: Setting, img: Image, x: Live) {
    Sound(g, img, x.s, x.fp, x.dp)
  }

  function Flat(x: Live): seq<byte>
    requires x.s.Valid()
  {
    FlatIn(x.s, x.dp)
  }

  /** The machine a cycle later, when the program did not end in it. */
  function Next(g: Setting, img: Image, x: Live, j: Junk): (y: Live)
    requires x.s.Valid()
    ensures y.s.Valid()
  {
    match Core.Cycle(g, x.s, j)
    case None => x
    case Some(t) => Live(t, FetchNext(g, img, x.s, x.fp, j), DataNext(g, img, x.s, x.dp, j.0))
  }

  // ---------------------------------------------------------------- rounds

  /** A cycle, or the two cycles of a stalled access. */
  datatype Round = One(j: Junk) | Two(j: Junk, k: Junk)

  function DataOutcomeIn(g: Setting, s: State, j: Junk): DataOutcome
    requires s.Valid()
  {
    var r := DataPart(g, s, j.0);
    if r.DataResult? then r.outcome else Stored
  }

  function FetchOutcomeIn(g: Setting, s: State, j: Junk): FetchOutcome
    requires s.Valid()
  {
    var r := FetchPart(g, s, FetchMem(g, s, j.0), j.1);
    if r.FetchAccessResult? then r.fetched else FetchMiss(1)
  }

  /** The first cycle of a round is dealt with as intended, and does what the round says. In a round of one cycle
      no departure of the pipeline comes up: a short load finds zeros above it, and decode does not wait in the cycle
      of a mispredict. In one of two, a stalled load keeps its sources and what gets past a stalled store is a register
      write or load independent of it, or a store, or nothing. */
  ghost predicate RoundOkButZero(g: Setting, img: Image, x: Live, r: Round)
    requires x.s.Valid()
  {
    var p := x.s.pipe;
    var outcome := DataOutcomeIn(g, x.s, r.j);
    && CycleOk(g, img, x.s, x.fp, x.dp, r.j)
    && match r
       case One(_) =>
         && (Presents(x.s) ==> !Stalls(outcome))
         && (p.m.readWrite == LOAD && outcome.Loaded? && 1 <= |outcome.bytes| <= 8 ==>
             LoadFits(p.w.value, outcome.bytes, p.m.signExtend))
         && !(Mispredicts(g.exec, p) && DecodeActive(p) && DecodeWaits(p))
       case Two(j, k) =>
         && Presents(x.s) && Stalls(outcome)
         && (p.m.readWrite == LOAD ==> PipelineStalls.KeepsSources(CodeAt(g, img, p.m.pc)))
         && (PipelineStalls.Writes(PipelineStalls.GetsPast(g.exec, p, outcome)) ==>
               PipelineStalls.Independent(CodeAt(g, img, p.m.pc), CodeAt(g, img, p.x.pc)))
         && var y := Next(g, img, x, j);
            CycleOk(g, img, y.s, y.fp, y.dp, k)
  }

  /** Orderly, and nothing but zero is forwarded for register 0. */
  ghost predicate RoundOk(g: Setting, img: Image, x: Live, r: Round)
    requires x.s.Valid()
  {
    RoundOkButZero(g, img, x, r) && (r.One? ==> ZeroSafe(x.s.pipe))
  }

  function After(g: Setting, img: Image, x: Live, r: Round): (y: Live)
    requires x.s.Valid()
    ensures y.s.Valid()
  {
    match r
    case One(j) => Next(g, img, x, j)
    case Two(j, k) => Next(g, img, Next(g, img, x, j), k)
  }

  /** The round as the pipeline sees it. */
  function PipeRound(g: Setting, img: Image, x: Live, r: Round): PipelineStalls.Round
    requires x.s.Valid()
  {
    match r
    case One(j) => PipelineStalls.Plain(DataOutcomeIn(g, x.s, j), FetchOutcomeIn(g, x.s, j))
    case Two(j, k) =>
      var y := Next(g, img, x, j);
      var data, fetch := DataOutcomeIn(g, x.s, j), FetchOutcomeIn(g, x.s, j);
      var data', fetch' := DataOutcomeIn(g, y.s, k), FetchOutcomeIn(g, y.s, k);
      if PipelineStalls.GetsPast(g.exec, x.s.pipe, data).StoreMem?
          then PipelineStalls.Contended(data, fetch, [(data', fetch')])
      else PipelineStalls.Replayed(data, fetch, data', fetch')
  }

  /** The round neither ends the program nor breaks the invariant, and is a round of the pipeline's. */
  ghost predicate RoundRefines(g: Setting, img: Image, x: Live, r: Round)
    requires x.s.Valid()
  {
    var u := WorldOf(g, img);
    var y := After(g, img, x, r);
    && LiveSound(g, img, y) && Runs(g, x.s, JunkIn(r)) == Some(y.s)
    && PipelineStalls.RoundOk(u, x.s.pipe, Flat(x), PipeRound(g, img, x, r))
    && PipelineStalls.After(u, x.s.pipe, Flat(x), PipeRound(g, img, x, r)) == (y.s.pipe, Flat(y))
  }

  // ---------------------------------------------------------------- a run, cycle by cycle

  function Runs(g: Setting, s: State, js: seq<Junk>): (r: Option<State>)
    requires s.Valid()
    ensures r.Some? ==> r.value.Valid()
    decreases |js|
  {
    if js == [] then Some(s)
    else match Core.Cycle(g, s, js[0]) case None => None case Some(t) => Runs(g, t, js[1..])
  }

  function JunkIn(r: Round): seq<Junk> {
    match r case One(j) => [j] case Two(j, k) => [j, k]
  }

  function JunkOf(rounds: seq<Round>): seq<Junk> {
    if rounds == [] then [] else JunkIn(rounds[0]) + JunkOf(rounds[1..])
  }

  lemma {:induction false} RunsOn(g: Setting, s: State, js: seq<Junk>, ks: seq<Junk>)
    requires s.Valid()
    ensures Runs(g, s, js + ks) == match Runs(g, s, js) case None => None case Some(t) => Runs(g, t, ks)
    decreases |js|
  {
    if js == [] {
      assert js + ks == ks;
    } else {
      assert (js + ks)[0] == js[0] && (js + ks)[1..] == js[1..] + ks;
      var c := Core.Cycle(g, s, js[0]);
      if c.Some? {
        RunsOn(g, c.value, js[1..], ks);
      }
    }
  }

  // ---------------------------------------------------------------- one round

  lemma OneIsSmooth(g: Setting, img: Image, x: Live, j: Junk, y: Live)
    requires LiveSound(g, img, x) && RoundOk(g, img, x, One(j)) && y == Next(g, img, x, j) && x.s.pipe.w.stall == 0
    requires CycleTells(g, img, x.s, x.dp, j, y.s, y.dp)
    ensures var u := WorldOf(g, img);
      var data, fetch := DataOutcomeIn(g, x.s, j), FetchOutcomeIn(g, x.s, j);
      && Smooth(u, x.s.pipe, Flat(x), data, fetch)
      && y.s.pipe == Pipeline.Cycle(g.exec, x.s.pipe, data, fetch) && Flat(y) == NextMem(u, x.s.pipe, Flat(x))
  {
  }

  lemma OneRefines(g: Setting, img: Image, x: Live, r: Round)
    requires LiveSound(g, img, x) && RoundOk(g, img, x, r) && r.One? && x.s.pipe.w.stall == 0
    requires HandlersOk(WorldOf(g, img))
    ensures RoundRefines(g, img, x, r)
  {
    var t := CycleSound(g, img, x.s, x.fp, x.dp, r.j);
    OneIsSmooth(g, img, x, r.j, Next(g, img, x, r.j));
    assert [r.j][1..] == [];
  }

  /** The two cycles of a stall, as the pipeline sees them. */
  lemma TwoIsStalled(g: Setting, img: Image, x: Live, j: Junk, k: Junk, y: Live, z: Live)
    requires LiveSound(g, img, x) && RoundOk(g, img, x, Two(j, k)) && y == Next(g, img, x, j) && z == Next(g, img, y, k)
    requires CycleTells(g, img, x.s, x.dp, j, y.s, y.dp) && CycleTells(g, img, y.s, y.dp, k, z.s, z.dp)
    ensures var u := WorldOf(g, img);
      var data, fetch := DataOutcomeIn(g, x.s, j), FetchOutcomeIn(g, x.s, j);
      var data', fetch' := DataOutcomeIn(g, y.s, k), FetchOutcomeIn(g, y.s, k);
      && Stalls(data) && y.s.pipe == Pipeline.Cycle(g.exec, x.s.pipe, data, fetch)
      && z.s.pipe == Pipeline.Cycle(g.exec, y.s.pipe, data', fetch') && HonestFetch(u, y.s.pipe, fetch')
      && PastDone(g, x.s.pipe, data, data') && Flat(z) == NextMem(u, y.s.pipe, Flat(x))
  {
    StallReported(g.exec, x.s.pipe, DataOutcomeIn(g, x.s, j), FetchOutcomeIn(g, x.s, j));
  }

  lemma StallReported(exec: Handlers, p: Pipe, data: DataOutcome, fetch: FetchOutcome)
    requires p.Valid() && p.w.tainted == 0 && IsAccess(p.m) && Stalls(data)
    ensures Pipeline.Cycle(exec, p, data, fetch).w.stall != 0
  {
  }

  /** What was let past is done in the second cycle. */
  ghost predicate PastDone(g: Setting, p: Pipe, data: DataOutcome, data': DataOutcome)
    requires p.Valid()
  {
    var past := PipelineStalls.GetsPast(g.exec, p, data);
    (past.LoadMem? ==> data'.Loaded?) && (past.StoreMem? ==> data' == Stored)
  }

  lemma TwoRefines(g: Setting, img: Image, x: Live, r: Round)
    requires LiveSound(g, img, x) && RoundOk(g, img, x, r) && r.Two? && HandlersOk(WorldOf(g, img))
    ensures RoundRefines(g, img, x, r)
  {
    var t := CycleSound(g, img, x.s, x.fp, x.dp, r.j);
    var y := Next(g, img, x, r.j);
    var t' := CycleSound(g, img, y.s, y.fp, y.dp, r.k);
    var z := Next(g, img, y, r.k);
    TwoIsStalled(g, img, x, r.j, r.k, y, z);
    RunsTwo(g, x.s, r.j, r.k, y.s, z.s);
    TwoPutTogether(g, img, x, r, y, z);
  }

  lemma RunsTwo(g: Setting, s: State, j: Junk, k: Junk, t: State, v: State)
    requires s.Valid() && t.Valid() && v.Valid() && Core.Cycle(g, s, j) == Some(t) && Core.Cycle(g, t, k) == Some(v)
    ensures Runs(g, s, [j, k]) == Some(v)
  {
    assert [j, k][1..] == [k] && [k][1..] == [];
    assert Runs(g, t, [k]) == Runs(g, v, []);
  }

  /** A round of two cycles is one of the pipeline's. */
  lemma TwoIsRound<M>(u: World<M>, p: Pipe, mem: M, data: DataOutcome, fetch: FetchOutcome, data': DataOutcome,
      fetch': FetchOutcome)
    requires p.Valid() && p.w.tainted == 0 && IsAccess(p.m) && Stalls(data)
    requires HonestFetch(u, Pipeline.Cycle(u.exec, p, data, fetch), fetch')
    requires var past := PipelineStalls.GetsPast(u.exec, p, data);
      && (past.LoadMem? ==> data'.Loaded?) && (past.StoreMem? ==> data' == Stored)
      && (p.m.readWrite == LOAD ==> PipelineStalls.KeepsSources(u.code(p.m.pc)))
      && (PipelineStalls.Writes(past) ==> PipelineStalls.Independent(u.code(p.m.pc), u.code(p.x.pc)))
    ensures var p1 := Pipeline.Cycle(u.exec, p, data, fetch);
      var r := if PipelineStalls.GetsPast(u.exec, p, data).StoreMem?
          then PipelineStalls.Contended(data, fetch, [(data', fetch')])
               else PipelineStalls.Replayed(data, fetch, data', fetch');
      && PipelineStalls.RoundOk(u, p, mem, r)
      && PipelineStalls.After(u, p, mem, r) == (Pipeline.Cycle(u.exec, p1, data', fetch'), NextMem(u, p1, mem))
  {
    var p1 := Pipeline.Cycle(u.exec, p, data, fetch);
    var turns := [(data', fetch')];
    if PipelineStalls.GetsPast(u.exec, p, data).StoreMem? {
      assert turns[1..] == [];
      assert PipelineStalls.RunTurns(u, p1, mem, turns)
        == PipelineStalls.RunTurns(u, Pipeline.Cycle(u.exec, p1, data', fetch'), NextMem(u, p1, mem), []);
    } else {
      assert NextMem(u, p1, mem) == mem;
    }
  }

  lemma TwoPutTogether(g: Setting, img: Image, x: Live, r: Round, y: Live, z: Live)
    requires x.s.Valid() && RoundOk(g, img, x, r) && r.Two? && x.s.pipe.w.tainted == 0
    requires LiveSound(g, img, z) && Runs(g, x.s, JunkIn(r)) == Some(z.s)
    requires y == Next(g, img, x, r.j) && z == Next(g, img, y, r.k)
    requires var u := WorldOf(g, img);
      var data, fetch := DataOutcomeIn(g, x.s, r.j), FetchOutcomeIn(g, x.s, r.j);
      var data', fetch' := DataOutcomeIn(g, y.s, r.k), FetchOutcomeIn(g, y.s, r.k);
      && Stalls(data) && y.s.pipe == Pipeline.Cycle(g.exec, x.s.pipe, data, fetch)
      && z.s.pipe == Pipeline.Cycle(g.exec, y.s.pipe, data', fetch') && HonestFetch(u, y.s.pipe, fetch')
      && PastDone(g, x.s.pipe, data, data') && Flat(z) == NextMem(u, y.s.pipe, Flat(x))
    ensures RoundRefines(g, img, x, r)
  {
    TwoIsRound(WorldOf(g, img), x.s.pipe, Flat(x), DataOutcomeIn(g, x.s, r.j), FetchOutcomeIn(g, x.s, r.j),
               DataOutcomeIn(g, y.s, r.k), FetchOutcomeIn(g, y.s, r.k));
  }

  lemma WorldSettles(g: Setting, img: Image)
    ensures PipelineStalls.StoresSettle(WorldOf(g, img))
  {
    forall flat: seq<byte>, a: nat, n: nat, v: Word
      ensures StoreTo(g, img, StoreTo(g, img, flat, a, n, v), a, n, v) == StoreTo(g, img, flat, a, n, v)
    {
      var p := Translate(g, img, a);
      if p.Some? && n <= 8 && p.value + n <= |flat| {
        var once := Splice(flat, p.value, v[..n]);
        assert Splice(once, p.value, v[..n]) == once;
      }
    }
    forall flat: seq<byte>, a: nat, n: nat, v: Word, a': nat, n': nat, v': Word
      ensures StoreTo(g, img, StoreTo(g, img, StoreTo(g, img, flat, a, n, v), a', n', v'), a, n, v)
        == StoreTo(g, img, StoreTo(g, img, flat, a', n', v'), a, n, v)
    {
    }
  }

  // ---------------------------------------------------------------- runs

  ghost predicate AllRoundsOk(g: Setting, img: Image, x: Live, rounds: seq<Round>)
    requires x.s.Valid()
    decreases |rounds|
  {
    rounds == [] || (RoundOk(g, img, x, rounds[0]) && AllRoundsOk(g, img, After(g, img, x, rounds[0]), rounds[1..]))
  }

  function AfterAll(g: Setting, img: Image, x: Live, rounds: seq<Round>): (y: Live)
    requires x.s.Valid()
    ensures y.s.Valid()
    decreases |rounds|
  {
    if rounds == [] then x else AfterAll(g, img, After(g, img, x, rounds[0]), rounds[1..])
  }

  /** The machine stands for the sequential machine `a`, `lag` repeated instructions behind it. */
  ghost predicate Follows(g: Setting, img: Image, x: Live, a: Machine<seq<byte>>, lag: nat) {
    LiveSound(g, img, x) && PipelineStalls.Follows(WorldOf(g, img), x.s.pipe, Flat(x), a, lag)
  }

  /** The rounds as the pipeline sees them. */
  function PipeRounds(g: Setting, img: Image, x: Live, rounds: seq<Round>): seq<PipelineStalls.Round>
    requires x.s.Valid()
    decreases |rounds|
  {
    if rounds == [] then []
    else [PipeRound(g, img, x, rounds[0])] + PipeRounds(g, img, After(g, img, x, rounds[0]), rounds[1..])
  }

  /** Every execution is one of the n steps or repeats an instruction, at most two of them after each stall. */
  predicate Counted(g: Setting, img: Image, x: Live, lag: nat, rounds: seq<Round>, n: nat, lag': nat)
    requires x.s.Valid()
  {
    PipelineStalls.Counted(WorldOf(g, img), x.s.pipe, Flat(x), lag, PipeRounds(g, img, x, rounds), n, lag')
  }

  /** One round of the machine goes on, is a round of the pipeline's, and the machine still follows a sequential one. */
  lemma FirstRound(g: Setting, img: Image, x: Live, a: Machine<seq<byte>>, lag: nat, r: Round)
    returns (y: Live, b: Machine<seq<byte>>, mid: nat)
    requires Follows(g, img, x, a, lag) && RoundOk(g, img, x, r) && HandlersOk(WorldOf(g, img))
    ensures x.s.Valid() && y == After(g, img, x, r) && Follows(g, img, y, b, mid) && RoundRefines(g, img, x, r)
  {
    var u := WorldOf(g, img);
    WorldSettles(g, img);
    if r.One? { OneRefines(g, img, x, r); } else { TwoRefines(g, img, x, r); }
    var pr := PipeRound(g, img, x, r);
    mid := PipelineStalls.RoundFollows(u, x.s.pipe, Flat(x), a, lag, pr);
    y := After(g, img, x, r);
    b := PipelineStalls.Advance(u, x.s.pipe, a, lag, pr);
  }

  lemma RoundsBegin<M>(u: World<M>, p: Pipe, mem: M, q: Pipe, mem': M, r: PipelineStalls.Round,
      rest: seq<PipelineStalls.Round>)
    requires p.Valid() && q.Valid() && PipelineStalls.RoundOk(u, p, mem, r)
    requires PipelineStalls.After(u, p, mem, r) == (q, mem')
    requires PipelineStalls.AllRoundsOk(u, q, mem', rest)
    ensures PipelineStalls.AllRoundsOk(u, p, mem, [r] + rest)
    ensures PipelineStalls.RunRounds(u, p, mem, [r] + rest) == PipelineStalls.RunRounds(u, q, mem', rest)
  {
    assert ([r] + rest)[1..] == rest;
  }

  /** A run of the machine is a run of its pipeline over the flat memory. */
  lemma {:induction false} RunIsPipelines(g: Setting, img: Image, x: Live, a: Machine<seq<byte>>, lag: nat,
      rounds: seq<Round>)
    returns (y: Live)
    requires Follows(g, img, x, a, lag) && HandlersOk(WorldOf(g, img)) && AllRoundsOk(g, img, x, rounds)
    ensures y == AfterAll(g, img, x, rounds) && LiveSound(g, img, y) && Runs(g, x.s, JunkOf(rounds)) == Some(y.s)
    ensures var u, rs := WorldOf(g, img), PipeRounds(g, img, x, rounds);
      PipelineStalls.AllRoundsOk(u, x.s.pipe, Flat(x), rs)
          && PipelineStalls.RunRounds(u, x.s.pipe, Flat(x), rs) == (y.s.pipe, Flat(y))
    decreases |rounds|
  {
    if rounds == [] {
      y := x;
    } else {
      var z, b, mid := FirstRound(g, img, x, a, lag, rounds[0]);
      y := RunIsPipelines(g, img, z, b, mid, rounds[1..]);
      RunsOn(g, x.s, JunkIn(rounds[0]), JunkOf(rounds[1..]));
      RoundsBegin(WorldOf(g, img), x.s.pipe, Flat(x), z.s.pipe, Flat(z), PipeRound(g, img, x, rounds[0]),
                  PipeRounds(g, img, z, rounds[1..]));
    }
  }

  /** The whole simulator, pipeline, translation buffers, both caches, memory and predictor, over any run of orderly
      rounds, through page walks and cache misses of either stage, write-backs and replays: the program does not
      end early, and the state, drained and seen through the data cache, is that of the sequential machine after n
      steps, or is about to repeat the one or two instructions that led there. */
  lemma MachineRefines(g: Setting, img: Image, x: Live, a: Machine<seq<byte>>, lag: nat, rounds: seq<Round>)
    returns (n: nat, y: Live, b: Machine<seq<byte>>, lag': nat)
    requires Follows(g, img, x, a, lag) && HandlersOk(WorldOf(g, img)) && AllRoundsOk(g, img, x, rounds)
    ensures y == AfterAll(g, img, x, rounds) && Runs(g, x.s, JunkOf(rounds)) == Some(y.s)
    ensures StepsTo(WorldOf(g, img), a, n, b) && Follows(g, img, y, b, lag')
    ensures Counted(g, img, x, lag, rounds, n, lag')
  {
    y := RunIsPipelines(g, img, x, a, lag, rounds);
    WorldSettles(g, img);
    var t, mem';
    n, t, mem', b, lag' :=
      PipelineStalls.StallsRefine(WorldOf(g, img), x.s.pipe, Flat(x), a, lag, PipeRounds(g, img, x, rounds));
  }

  lemma LongerPrefix(rest: seq<Round>, rounds: seq<Round>)
    requires rounds != [] && rest <= rounds[1..]
    ensures [rounds[0]] + rest <= rounds && (1 + |rest| < |rounds| ==> rounds[1..][|rest|] == rounds[1 + |rest|])
  {
  }

  lemma RoundThenRest(g: Setting, img: Image, x: Live, r: Round, rest: seq<Round>, all: seq<Round>)
    requires x.s.Valid() && RoundOk(g, img, x, r) && AllRoundsOk(g, img, After(g, img, x, r), rest) && all == [r] + rest
    ensures AllRoundsOk(g, img, x, all) && AfterAll(g, img, x, all) == AfterAll(g, img, After(g, img, x, r), rest)
  {
    assert all[0] == r && all[1..] == rest;
  }

  // ---------------------------------------------------------------- power-on

  lemma EmptyCacheInv(c: Cache.Table, bytes: seq<byte>)
    requires c.Valid() && forall i :: 0 <= i < |c.rows| ==> !c.rows[i].valid && !c.rows[i].dirty
    ensures CacheRefinement.Inv(c, bytes, CacheRefinement.NO_HOLE)
  {
  }

  lemma EmptyCacheFlat(c: Cache.Table, bytes: seq<byte>)
    requires c.Valid() && forall i :: 0 <= i < |c.rows| ==> !c.rows[i].valid && !c.rows[i].dirty
    ensures CacheRefinement.Flat(c, bytes, CacheRefinement.NO_HOLE) == bytes
  {
    forall a | 0 <= a < |bytes| ensures CacheRefinement.AbsByte(c, bytes, CacheRefinement.NO_HOLE, a) == bytes[a] {
      var p := c.Split(a);
      assert CacheRefinement.Covers(c, CacheRefinement.NO_HOLE, p.tag, p.set_).None?;
    }
  }

  lemma EmptyTableCoherent(bytes: seq<byte>, ptbr: nat)
    ensures TlbProofs.Coherent(Tlb.Empty(), bytes, ptbr)
  {
    forall va | 0 <= va < TWO32 ensures !Tlb.Hits(Tlb.Empty(), va) {
      assert !Tlb.Empty().entries[Tlb.TableIndex(va)].valid;
    }
  }

  /** The machine just switched on, nobody waiting. */
  function Started(img: Image, readLatency: nat, writeLatency: nat): (x: Live)
    ensures x.s.Valid()
  {
    Live(PowerOn(img.bytes, readLatency, writeLatency), Resting, Resting)
  }

  /** The machine just switched on, with the image in its memory. */
  lemma PowerOnFollows(g: Setting, img: Image, readLatency: nat, writeLatency: nat)
    requires ImageOk(g, img)
    ensures Follows(g, img, Started(img, readLatency, writeLatency),
                    Machine(0, seq(32, _ => ZERO), img.bytes), 0)
  {
    var s := PowerOn(img.bytes, readLatency, writeLatency);
    var x := Live(s, Resting, Resting);
    EmptyTableCoherent(img.bytes, g.ptbr);
    EmptyCacheInv(s.icache, img.bytes);
    EmptyCacheInv(s.dcache, img.bytes);
    EmptyCacheFlat(s.dcache, img.bytes);
    assert LiveSound(g, img, x);
    assert Abs(WorldOf(g, img), s.pipe, Flat(x)) == Machine(0, seq(32, _ => ZERO), img.bytes);
  }

  /** From power-on, with empty translation buffers and caches, whatever the image, the latencies and the handlers,
      every orderly run of the machine refines the sequential machine started at pc 0 with all registers zero and
      the image as its data. */
  lemma MachineRefinesFromPowerOn(g: Setting, img: Image, readLatency: nat, writeLatency: nat, rounds: seq<Round>)
    returns (n: nat, y: Live, b: Machine<seq<byte>>, lag: nat)
    requires ImageOk(g, img) && HandlersOk(WorldOf(g, img))
    requires AllRoundsOk(g, img, Started(img, readLatency, writeLatency), rounds)
    ensures y == AfterAll(g, img, Started(img, readLatency, writeLatency), rounds)
    ensures Runs(g, PowerOn(img.bytes, readLatency, writeLatency), JunkOf(rounds)) == Some(y.s)
    ensures StepsTo(WorldOf(g, img), Machine(0, seq(32, _ => ZERO), img.bytes), n, b) && Follows(g, img, y, b, lag)
    ensures Counted(g, img, Started(img, readLatency, writeLatency), 0, rounds, n, lag)
  {
    var x := Started(img, readLatency, writeLatency);
    PowerOnFollows(g, img, readLatency, writeLatency);
    n, y, b, lag := MachineRefines(g, img, x, Machine(0, seq(32, _ => ZERO), img.bytes), 0, rounds);
  }

  // ---------------------------------------------------------------- programs that leave register 0 alone

  ghost predicate AllRoundsOkButZero(g: Setting, img: Image, x: Live, rounds: seq<Round>)
    requires x.s.Valid()
    decreases |rounds|
  {
    rounds == []
    || (RoundOkButZero(g, img, x, rounds[0]) && AllRoundsOkButZero(g, img, After(g, img, x, rounds[0]), rounds[1..]))
  }

  /** No instruction that writes register 0 is on its way. */
  ghost predicate Quiet(g: Setting, img: Image, x: Live) {
    LiveSound(g, img, x) && ZeroQuiet(g.exec, x.s.pipe)
  }

  lemma QuietKept(g: Setting, img: Image, x: Live, j: Junk)
    requires Quiet(g, img, x) && HandlersOk(WorldOf(g, img)) && ClearProgram(WorldOf(g, img))
    requires CycleOk(g, img, x.s, x.fp, x.dp, j)
    ensures Quiet(g, img, Next(g, img, x, j))
  {
    var u := WorldOf(g, img);
    var t := CycleSound(g, img, x.s, x.fp, x.dp, j);
    var fetch := FetchPart(g, x.s, FetchMem(g, x.s, j.0), j.1).fetched;
    assert HonestFetch(u, x.s.pipe, fetch);
    ZeroQuietKept(u, x.s.pipe, DataPart(g, x.s, j.0).outcome, fetch);
  }

  lemma QuietRound(g: Setting, img: Image, x: Live, r: Round)
    requires Quiet(g, img, x) && HandlersOk(WorldOf(g, img)) && ClearProgram(WorldOf(g, img))
    requires RoundOkButZero(g, img, x, r)
    ensures RoundOk(g, img, x, r) && Quiet(g, img, After(g, img, x, r))
  {
    ZeroQuietIsSafe(g.exec, x.s.pipe);
    QuietKept(g, img, x, r.j);
    if r.Two? {
      QuietKept(g, img, Next(g, img, x, r.j), r.k);
    }
  }

  lemma {:induction false} QuietRun(g: Setting, img: Image, x: Live, rounds: seq<Round>)
    requires Quiet(g, img, x) && HandlersOk(WorldOf(g, img)) && ClearProgram(WorldOf(g, img))
    requires AllRoundsOkButZero(g, img, x, rounds)
    ensures AllRoundsOk(g, img, x, rounds)
    decreases |rounds|
  {
    if rounds == [] {
    } else {
      QuietRound(g, img, x, rounds[0]);
      QuietRun(g, img, After(g, img, x, rounds[0]), rounds[1..]);
    }
  }

  /** The same for a program that writes register 0 nowhere, with no condition on what is forwarded for it. */
  lemma ClearProgramRefinesFromPowerOn(g: Setting, img: Image, readLatency: nat, writeLatency: nat, rounds: seq<Round>)
    returns (n: nat, y: Live, b: Machine<seq<byte>>, lag: nat)
    requires ImageOk(g, img) && HandlersOk(WorldOf(g, img)) && ClearProgram(WorldOf(g, img))
    requires AllRoundsOkButZero(g, img, Started(img, readLatency, writeLatency), rounds)
    ensures Runs(g, PowerOn(img.bytes, readLatency, writeLatency), JunkOf(rounds)) == Some(y.s)
    ensures StepsTo(WorldOf(g, img), Machine(0, seq(32, _ => ZERO), img.bytes), n, b) && Follows(g, img, y, b, lag)
    ensures Counted(g, img, Started(img, readLatency, writeLatency), 0, rounds, n, lag)
  {
    PowerOnFollows(g, img, readLatency, writeLatency);
    QuietRun(g, img, Started(img, readLatency, writeLatency), rounds);
    n, y, b, lag := MachineRefinesFromPowerOn(g, img, readLatency, writeLatency, rounds);
  }

  // ---------------------------------------------------------------- the simulator's loop

  /** How many cycles the loop runs: until it sees the breakpoint, the program ends, or the inputs do. */
  function CyclesRun(g: Setting, s: State, js: seq<Junk>): (k: nat)
    requires s.Valid()
    ensures k <= |js|
    decreases |js|
  {
    if js == [] || BreakpointAt(s.mem.bytes, s.pipe.pc) then 0
    else match Core.Cycle(g, s, js[0]) case None => 1 case Some(t) => 1 + CyclesRun(g, t, js[1..])
  }

  lemma {:induction false} SimulateRuns(g: Setting, s: State, js: seq<Junk>)
    requires s.Valid()
    ensures Simulate(g, s, js) == Runs(g, s, js[..CyclesRun(g, s, js)])
    decreases |js|
  {
    SimulateByBytes(g, s, js);
    if js != [] && !BreakpointAt(s.mem.bytes, s.pipe.pc) {
      var k := CyclesRun(g, s, js);
      assert js[..k][0] == js[0] && js[..k][1..] == js[1..][..k - 1];
      var c := Core.Cycle(g, s, js[0]);
      if c.Some? {
        SimulateRuns(g, c.value, js[1..]);
      }
    }
  }

  /** The loop may stop between the two cycles of a replay; the first of them is then left over. */
  ghost predicate TailOk(g: Setting, img: Image, x: Live, tail: seq<Junk>) {
    tail == [] || (|tail| == 1 && x.s.Valid() && CycleOk(g, img, x.s, x.fp, x.dp, tail[0]))
  }

  function AfterTail(g: Setting, img: Image, x: Live, tail: seq<Junk>): (y: Live)
    requires x.s.Valid()
    ensures y.s.Valid()
  {
    if tail == [] then x else Next(g, img, x, tail[0])
  }

  lemma TailRuns(g: Setting, img: Image, x: Live, tail: seq<Junk>)
    requires LiveSound(g, img, x) && HandlersOk(WorldOf(g, img)) && TailOk(g, img, x, tail)
    ensures LiveSound(g, img, AfterTail(g, img, x, tail)) && Runs(g, x.s, tail) == Some(AfterTail(g, img, x, tail).s)
  {
    if tail != [] {
      var t := CycleSound(g, img, x.s, x.fp, x.dp, tail[0]);
      assert tail[1..] == [] && Runs(g, t, tail[1..]) == Some(t);
    }
  }

  /** The simulator's loop from power-on: when the cycles it runs make up orderly rounds, up to one cycle left over, it
      does not end early, and after the last round leaves the machine as the sequential machine is after n steps,
      or about to repeat what led there; the cycle left over keeps the machine sound. */
  lemma SimulateRefines(g: Setting, img: Image, readLatency: nat, writeLatency: nat, js: seq<Junk>,
      rounds: seq<Round>, tail: seq<Junk>)
    returns (n: nat, y: Live, b: Machine<seq<byte>>, lag: nat)
    requires ImageOk(g, img) && HandlersOk(WorldOf(g, img))
    requires JunkOf(rounds) + tail == js[..CyclesRun(g, PowerOn(img.bytes, readLatency, writeLatency), js)]
    requires AllRoundsOk(g, img, Started(img, readLatency, writeLatency), rounds)
    requires TailOk(g, img, AfterAll(g, img, Started(img, readLatency, writeLatency), rounds), tail)
    ensures y.s.Valid() && LiveSound(g, img, AfterTail(g, img, y, tail))
    ensures Simulate(g, PowerOn(img.bytes, readLatency, writeLatency), js) == Some(AfterTail(g, img, y, tail).s)
    ensures StepsTo(WorldOf(g, img), Machine(0, seq(32, _ => ZERO), img.bytes), n, b) && Follows(g, img, y, b, lag)
    ensures Counted(g, img, Started(img, readLatency, writeLatency), 0, rounds, n, lag)
  {
    var s := PowerOn(img.bytes, readLatency, writeLatency);
    n, y, b, lag := MachineRefinesFromPowerOn(g, img, readLatency, writeLatency, rounds);
    TailRuns(g, img, y, tail);
    RunsOn(g, s, JunkOf(rounds), tail);
    SimulateRuns(g, s, js);
  }
}
