/** The predictor inside the pipeline: over every run, whatever the memory system does, its table is
    what the jumps executed so far have taught it. */
module PipelineHistory {
  import opened Pipeline
  import opened PipelineProofs
  import Predictor

  /** The jump an executed instruction makes, if it goes anywhere but to the next word. */
  function JumpIn(exec: Handlers, s: Pipe): seq<Predictor.Jump> {
    if Executes(s) && s.x.instruction != 0 && Run(exec, s.x).nextPc != Predictor.NextPc(s.x.pc)
    then [Predictor.Jump(s.x.pc, Run(exec, s.x).nextPc)] else []
  }

  function Jumps(exec: Handlers, s: Pipe, ins: seq<(DataOutcome, FetchOutcome)>): seq<Predictor.Jump>
    requires s.Valid()
    decreases |ins|
  {
    if ins == [] then [] else JumpIn(exec, s) + Jumps(exec, Cycle(exec, s, ins[0].0, ins[0].1), ins[1..])
  }

  lemma {:induction false} LearnedInTurn(t: seq<Predictor.Entry>, first: seq<Predictor.Jump>,
      then_: seq<Predictor.Jump>)
    requires Predictor.Valid(t)
    ensures Predictor.Learned(Predictor.Learned(t, first), then_) == Predictor.Learned(t, first + then_)
    decreases |then_|
  {
    if then_ == [] {
      assert first + then_ == first;
    } else {
      var front := then_[..|then_| - 1];
      LearnedInTurn(t, first, front);
      assert (first + then_)[..|first + then_| - 1] == first + front;
    }
  }

  lemma CycleLearns(exec: Handlers, s: Pipe, data: DataOutcome, fetch: FetchOutcome)
    requires s.Valid()
    ensures Cycle(exec, s, data, fetch).table == Predictor.Learned(s.table, JumpIn(exec, s))
  {
    if JumpIn(exec, s) != [] {
      var j := JumpIn(exec, s)[0];
      assert Predictor.Learned(s.table, [j]) == Predictor.Update(s.table, j.branch, j.target, false) by {
        assert [j][..0] == [];
      }
    }
  }

  lemma {:induction false} RunLearns(exec: Handlers, s: Pipe, ins: seq<(DataOutcome, FetchOutcome)>)
    requires s.Valid()
    ensures CycleAll(exec, s, ins).table == Predictor.Learned(s.table, Jumps(exec, s, ins))
    decreases |ins|
  {
    if ins != [] {
      var t := Cycle(exec, s, ins[0].0, ins[0].1);
      CycleLearns(exec, s, ins[0].0, ins[0].1);
      RunLearns(exec, t, ins[1..]);
      LearnedInTurn(s.table, JumpIn(exec, s), Jumps(exec, t, ins[1..]));
    }
  }

  /** Over every run of the pipeline from an untrained table, for every outcome of the memory system, a
      prediction other than the next word is a target that an instruction executed at that address
      jumped to earlier in the run. */
  lemma PipelinePredictsHistory(exec: Handlers, s: Pipe, ins: seq<(DataOutcome, FetchOutcome)>, a: nat)
    requires s.Valid() && s.table == Predictor.Initial()
    ensures var t := CycleAll(exec, s, ins).table;
      && (Predictor.Predict(t, a) != Predictor.NextPc(a) ==>
            Predictor.Jump(a, Predictor.Predict(t, a)) in Jumps(exec, s, ins))
      && t[a % 32].counter <= 3
  {
    RunLearns(exec, s, ins);
    Predictor.PredictionsAreHistory(Jumps(exec, s, ins), a);
  }
}
