/** The branch target table of branch_predictor.c. */
module Predictor {
  import opened Words

  const ENTRIES := 32

  datatype Entry = Entry(branch: nat, target: nat, counter: nat)

  predicate Valid(t: seq<Entry>) {
    |t| == ENTRIES
  }

  function Initial(): (t: seq<Entry>)
    ensures Valid(t)
  {
    seq(ENTRIES, _ => Entry(0, 0, 0))
  }

  function NextPc(a: nat): nat {
    (a + 4) % TWO64
  }

  function Bump(counter: nat, taken: bool): nat {
    if taken && counter < 3 then counter + 1
    else if !taken && counter > 0 then counter - 1
    else counter
  }

  function Predict(t: seq<Entry>, a: nat): nat
    requires Valid(t)
  {
    var e := t[a % 32];
    if a == e.branch && e.counter > 1 then e.target else NextPc(a)
  }

  /** An entry is looked up by the low bits of the target, though predictions use those of the branch. */
  function Update(t: seq<Entry>, branch: nat, target: nat, taken: bool): (r: seq<Entry>)
    requires Valid(t)
    ensures Valid(r)
  {
    var i := target % 32;
    if t[i].branch == target then t[i := t[i].(counter := Bump(t[i].counter, taken))]
    else t[i := Entry(branch, target, if NextPc(branch) > target then 3 else 0)]
  }

  // ---------------------------------------------------------------- history

  /** A jump the execute stage reported: from where, to where. */
  datatype Jump = Jump(branch: nat, target: nat)

  /** The table after a run's jumps, each reported as the execute stage reports it. */
  function Learned(t: seq<Entry>, jumps: seq<Jump>): (r: seq<Entry>)
    requires Valid(t)
    ensures Valid(r)
    decreases |jumps|
  {
    if jumps == [] then t
    else Update(Learned(t, jumps[..|jumps| - 1]), jumps[|jumps| - 1].branch, jumps[|jumps| - 1].target, false)
  }

  ghost predicate Recorded(t: seq<Entry>, jumps: seq<Jump>)
    requires Valid(t)
  {
    forall i :: 0 <= i < ENTRIES ==>
      t[i].counter <= 3 && (t[i].counter > 0 ==> Jump(t[i].branch, t[i].target) in jumps)
  }

  lemma {:induction false} LearnedIsRecorded(jumps: seq<Jump>)
    ensures Recorded(Learned(Initial(), jumps), jumps)
    decreases |jumps|
  {
    if jumps != [] {
      var front := jumps[..|jumps| - 1];
      LearnedIsRecorded(front);
      assert forall j :: j in front ==> j in jumps;
    }
  }

  /** Over every run, a prediction other than the next instruction is a target that this very branch
      jumped to earlier, and every counter stays within two bits. */
  lemma PredictionsAreHistory(jumps: seq<Jump>, a: nat)
    ensures var t := Learned(Initial(), jumps);
      && (Predict(t, a) != NextPc(a) ==> Jump(a, Predict(t, a)) in jumps)
      && t[a % 32].counter <= 3
  {
    LearnedIsRecorded(jumps);
  }

  /** It is the constant `not taken` of the execute stage that makes this so: two `taken` reports
      naming target 0 would invent a prediction that no jump backs. */
  lemma TakenReportsInventHistory(b: nat)
    requires b != 0
    ensures Predict(Update(Update(Initial(), b, 0, true), b, 0, true), 0) == 0 != NextPc(0)
  {
  }

  // ---------------------------------------------------------------- what a report teaches

  /** Where any address is predicted to go after a report. An entry that names the target as its branch is the one
      the report counts for; otherwise the slot of the target is given to the branch, which is then found only
      where their low bits agree, and is predicted to jump only backward. */
  lemma UpdateTeaches(t: seq<Entry>, branch: nat, target: nat, taken: bool, a: nat)
    requires Valid(t)
    ensures var r, e, next := Update(t, branch, target, taken), t[target % 32], (a + 4) % 0x1_0000_0000_0000_0000;
      && (a % 32 != target % 32 ==> Predict(r, a) == Predict(t, a))
      && (a % 32 == target % 32 && e.branch != target ==>
            Predict(r, a) == if a == branch && next > target then target else next)
      && (e.branch == target && a != target ==> Predict(r, a) == Predict(t, a))
      && (e.branch == target && a == target ==>
            Predict(r, a) == if e.counter >= (if taken then 1 else 3) then e.target else next)
  {
  }

  /** A report for an entry that is there moves its counter by one in the reported direction, within 0 and 3, and
      changes nothing else. */
  lemma ReportMovesCounter(t: seq<Entry>, branch: nat, target: nat, taken: bool, k: nat)
    requires Valid(t) && k < 32
    ensures var r, i := Update(t, branch, target, taken), target % 32;
      && (k != i ==> r[k] == t[k])
      && (t[i].branch == target ==>
            && r[i].branch == t[i].branch && r[i].target == t[i].target
            && (taken ==> r[i].counter == if t[i].counter >= 3 then t[i].counter else t[i].counter + 1)
            && (!taken ==> r[i].counter == if t[i].counter == 0 then 0 else t[i].counter - 1))
  {
  }

  /** The converse of the history law: after any run, a backward jump whose branch and target agree in their low
      bits is predicted the next time, unless the target's slot belongs to a branch at the target itself. */
  lemma LoopIsLearned(jumps: seq<Jump>, branch: nat, target: nat)
    requires branch % 32 == target % 32 && (branch + 4) % 0x1_0000_0000_0000_0000 > target
    requires Learned(Initial(), jumps)[target % 32].branch != target
    ensures Predict(Learned(Initial(), jumps + [Jump(branch, target)]), branch) == target
  {
    assert (jumps + [Jump(branch, target)])[..|jumps|] == jumps;
    UpdateTeaches(Learned(Initial(), jumps), branch, target, false, branch);
  }

  class PredictorUnit {
    const table: array<Entry>

    ghost predicate Valid() {
      table.Length == ENTRIES
    }

    constructor ()
      ensures Valid() && fresh(table) && table[..] == Initial()
    {
      table := new Entry[ENTRIES](_ => Entry(0, 0, 0));
    }

    method UpdateBht(taken: bool, i: nat)
      requires Valid() && i < ENTRIES
      modifies table
      ensures table[..] == old(table[..])[i := old(table[i]).(counter := Bump(old(table[i]).counter, taken))]
    {
      if taken && table[i].counter < 3 {
        table[i] := table[i].(counter := table[i].counter + 1);
      } else if !taken && table[i].counter > 0 {
        table[i] := table[i].(counter := table[i].counter - 1);
      }
    }

    method PredictAddress(a: nat) returns (target: nat)
      requires Valid()
      ensures target == Predict(table[..], a)
    {
      var i := a % 32;
      if a == table[i].branch && table[i].counter > 1 {
        return table[i].target;
      }
      return NextPc(a);
    }

    method UpdateEntry(branch: nat, target: nat, taken: bool)
      requires Valid()
      modifies table
      ensures table[..] == Update(old(table[..]), branch, target, taken)
    {
      var i := target % 32;
      if table[i].branch == target {
        UpdateBht(taken, i);
        return;
      }
      table[i] := table[i].(branch := branch);
      table[i] := table[i].(target := target);
      table[i] := table[i].(counter := if NextPc(branch) > target then 3 else 0);
    }
  }
}
