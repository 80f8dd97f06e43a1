/**
  The greedy constructor `greedy_schedule` (src/greedy/greedy.cpp): it
  repeatedly dispatches, among the next operations of all unfinished jobs,
  the one that can start earliest (ties: shorter processing time, then lower
  job index), and finally re-decodes the result with `calculate_makespan`.
 */
module Greedy {
  import opened Core
  import opened Decoder

  /** Lexicographic order on (start, processing time, job index): the greedy preference. */
  predicate Precedes(start1: int, proc1: int, job1: nat, start2: int, proc2: int, job2: nat) {
    || start1 < start2
    || (start1 == start2 && proc1 < proc2)
    || (start1 == start2 && proc1 == proc2 && job1 <= job2)
  }

  /** Job `j` still has an operation to dispatch after `s`. */
  predicate Unfinished(inst: Instance, s: seq<OpRef>, j: nat) {
    j < |inst.jobs| && CountJob(s, j) < |inst.jobs[j].operations|
  }

  /**
    After dispatching `s` (started at `starts`), `r` is the choice the greedy
    rule makes: the next operation of its job, preferred to the next operation
    of every unfinished job.
   */
  predicate IsGreedyChoice(inst: Instance, s: seq<OpRef>, starts: seq<int>, r: OpRef)
    requires ValidInstance(inst) && ValidSequence(inst, s) && |starts| == |s|
  {
    && ValidRef(inst, r)
    && r.op == CountJob(s, r.job)
    && forall j :: 0 <= j < |inst.jobs| && Unfinished(inst, s, j) ==>
         var other := OpRef(j, CountJob(s, j));
         Precedes(EarliestStart(inst, s, starts, r), ProcessingTime(inst, r), r.job,
                  EarliestStart(inst, s, starts, other), ProcessingTime(inst, other), j)
  }

  /** Every entry of a dispatch order was the greedy choice after the entries before it. */
  predicate IsGreedyOrder(inst: Instance, s: seq<OpRef>, starts: seq<int>)
    requires ValidInstance(inst) && ValidSequence(inst, s) && |starts| == |s|
  {
    forall i :: 0 <= i < |s| ==> IsGreedyChoice(inst, s[..i], starts[..i], s[i])
  }

  /** The state vectors of the dispatch loop. */
  predicate VectorsShaped(inst: Instance, nextOp: seq<nat>, machineAvailable: seq<int>, jobFinish: seq<int>) {
    && |nextOp| == |inst.jobs| && |jobFinish| == |inst.jobs|
    && |machineAvailable| == inst.numMachines
    && forall j :: 0 <= j < |nextOp| ==> nextOp[j] <= |inst.jobs[j].operations|
  }

  /** The earliest start of job `j`'s next operation as the loop computes it from its vectors. */
  function CandidateStart(inst: Instance, nextOp: seq<nat>, machineAvailable: seq<int>, jobFinish: seq<int>, j: nat): int
    requires ValidInstance(inst) && VectorsShaped(inst, nextOp, machineAvailable, jobFinish)
    requires j < |inst.jobs| && nextOp[j] < |inst.jobs[j].operations|
  {
    var r := OpRef(j, nextOp[j]);
    Max(machineAvailable[MachineOf(inst, r)], jobFinish[j] + TransportTime(inst, r))
  }

  /**
    The scan over all jobs: returns the unfinished job whose next operation
    has the smallest candidate start, breaking ties by smaller processing time
    and then by lower index (the comparison is strict, so the first such job
    in index order is kept).
   */
  method SelectNext(inst: Instance, nextOp: seq<nat>, machineAvailable: seq<int>, jobFinish: seq<int>)
    returns (best: nat, bestStart: int)
    requires ValidInstance(inst) && VectorsShaped(inst, nextOp, machineAvailable, jobFinish)
    requires exists j :: 0 <= j < |inst.jobs| && nextOp[j] < |inst.jobs[j].operations|
    ensures best < |inst.jobs| && nextOp[best] < |inst.jobs[best].operations|
    ensures bestStart == CandidateStart(inst, nextOp, machineAvailable, jobFinish, best)
    ensures forall j :: 0 <= j < |inst.jobs| && nextOp[j] < |inst.jobs[j].operations| ==>
      Precedes(bestStart, ProcessingTime(inst, OpRef(best, nextOp[best])), best,
               CandidateStart(inst, nextOp, machineAvailable, jobFinish, j),
               ProcessingTime(inst, OpRef(j, nextOp[j])), j)
  {
    var found := false;
    var bestProc := 0;
    best, bestStart := 0, 0;
    var j := 0;
    while j < |inst.jobs|
      invariant 0 <= j <= |inst.jobs|
      invariant found ==> best < j && nextOp[best] < |inst.jobs[best].operations|
      invariant found ==> bestStart == CandidateStart(inst, nextOp, machineAvailable, jobFinish, best)
      invariant found ==> bestProc == ProcessingTime(inst, OpRef(best, nextOp[best]))
      invariant !found ==> forall k :: 0 <= k < j ==> nextOp[k] >= |inst.jobs[k].operations|
      invariant found ==> forall k :: 0 <= k < j && nextOp[k] < |inst.jobs[k].operations| ==>
        Precedes(bestStart, bestProc, best,
                 CandidateStart(inst, nextOp, machineAvailable, jobFinish, k),
                 ProcessingTime(inst, OpRef(k, nextOp[k])), k)
    {
      if nextOp[j] < |inst.jobs[j].operations| {
        var op := OpAt(inst, OpRef(j, nextOp[j]));
        var transport := 0;
        if nextOp[j] > 0 {
          var previousMachine := MachineOf(inst, OpRef(j, nextOp[j] - 1));
          transport := inst.transportTimes[previousMachine][op.machineId];
        }
        var start := Max(machineAvailable[op.machineId], jobFinish[j] + transport);
        if !found || start < bestStart || (start == bestStart && op.processingTime < bestProc) {
          found := true;
          best, bestStart, bestProc := j, start, op.processingTime;
        }
      }
      j := j + 1;
    }
  }

  /** Dispatching a further greedy choice keeps the order a greedy order in job order. */
  lemma GreedyAppend(inst: Instance, s: seq<OpRef>, starts: seq<int>, r: OpRef, t: int)
    requires ValidInstance(inst) && ValidSequence(inst, s) && |starts| == |s|
    requires InJobOrder(s) && IsGreedyOrder(inst, s, starts)
    requires IsGreedyChoice(inst, s, starts, r)
    ensures ValidSequence(inst, s + [r])
    ensures InJobOrder(s + [r])
    ensures IsGreedyOrder(inst, s + [r], starts + [t])
  {
    var s', starts' := s + [r], starts + [t];
    assert s'[..|s|] == s && starts'[..|s|] == starts;
    forall i | 0 <= i < |s|
      ensures s'[..i] == s[..i] && starts'[..i] == starts[..i]
    {
    }
  }

  /** What the dispatch loop's vectors hold after dispatching `s` at `starts`. */
  predicate DispatchState(inst: Instance, s: seq<OpRef>, starts: seq<int>,
                          nextOp: seq<nat>, machineAvailable: seq<int>, jobFinish: seq<int>)
    requires ValidInstance(inst)
  {
    && VectorsShaped(inst, nextOp, machineAvailable, jobFinish)
    && |starts| == |s| && ValidSequence(inst, s)
    && (forall j :: 0 <= j < |inst.jobs| ==> nextOp[j] == CountJob(s, j))
    && Sum(nextOp) == |s|
    && InJobOrder(s) && IsDecoded(inst, s, starts) && IsGreedyOrder(inst, s, starts)
    && (forall m :: 0 <= m < inst.numMachines ==> machineAvailable[m] == MachineReady(inst, s, starts, m))
    && (forall j :: 0 <= j < |inst.jobs| ==> jobFinish[j] == JobReady(inst, s, starts, j))
  }

  /** The selected operation, read through the vectors, is the greedy choice in reference terms. */
  lemma SelectionIsGreedyChoice(inst: Instance, s: seq<OpRef>, starts: seq<int>,
                                nextOp: seq<nat>, machineAvailable: seq<int>, jobFinish: seq<int>,
                                best: nat, bestStart: int)
    requires ValidInstance(inst) && DispatchState(inst, s, starts, nextOp, machineAvailable, jobFinish)
    requires best < |inst.jobs| && nextOp[best] < |inst.jobs[best].operations|
    requires bestStart == CandidateStart(inst, nextOp, machineAvailable, jobFinish, best)
    requires forall j :: 0 <= j < |inst.jobs| && nextOp[j] < |inst.jobs[j].operations| ==>
      Precedes(bestStart, ProcessingTime(inst, OpRef(best, nextOp[best])), best,
               CandidateStart(inst, nextOp, machineAvailable, jobFinish, j),
               ProcessingTime(inst, OpRef(j, nextOp[j])), j)
    ensures IsGreedyChoice(inst, s, starts, OpRef(best, nextOp[best]))
    ensures bestStart == EarliestStart(inst, s, starts, OpRef(best, nextOp[best]))
  {
    forall j | 0 <= j < |inst.jobs| && nextOp[j] < |inst.jobs[j].operations|
      ensures CandidateStart(inst, nextOp, machineAvailable, jobFinish, j)
              == EarliestStart(inst, s, starts, OpRef(j, nextOp[j]))
    {
    }
  }

  /** One iteration of the dispatch loop keeps the vectors in step with the dispatched order. */
  lemma DispatchStep(inst: Instance, s: seq<OpRef>, starts: seq<int>,
                     nextOp: seq<nat>, machineAvailable: seq<int>, jobFinish: seq<int>,
                     best: nat, bestStart: int)
    requires ValidInstance(inst) && DispatchState(inst, s, starts, nextOp, machineAvailable, jobFinish)
    requires best < |inst.jobs| && nextOp[best] < |inst.jobs[best].operations|
    requires IsGreedyChoice(inst, s, starts, OpRef(best, nextOp[best]))
    requires bestStart == EarliestStart(inst, s, starts, OpRef(best, nextOp[best]))
    ensures
      var r := OpRef(best, nextOp[best]);
      var finish := bestStart + ProcessingTime(inst, r);
      DispatchState(inst, s + [r], starts + [bestStart], nextOp[best := nextOp[best] + 1],
                    machineAvailable[MachineOf(inst, r) := finish], jobFinish[best := finish])
  {
    var r := OpRef(best, nextOp[best]);
    GreedyAppend(inst, s, starts, r, bestStart);
    DecodedAppend(inst, s, starts, r, bestStart);
    ReadyAppend(inst, s, starts, r, bestStart);
    CountAppend(s, r);
    SumIncrement(nextOp, best);
  }

  /** When the loop stops every job has been dispatched completely. */
  lemma DispatchComplete(inst: Instance, s: seq<OpRef>, starts: seq<int>,
                         nextOp: seq<nat>, machineAvailable: seq<int>, jobFinish: seq<int>)
    requires ValidInstance(inst) && DispatchState(inst, s, starts, nextOp, machineAvailable, jobFinish)
    requires |s| == TotalOps(inst)
    ensures AllJobsComplete(inst, s)
  {
    SumReachesTotal(inst, nextOp, |inst.jobs|);
  }

  /**
    `greedy_schedule`: dispatches every operation once, each the greedy
    choice after the ones before it, records its earliest start, and returns
    the re-decoded solution, whose start times are the recorded ones.
   */
  method GreedySchedule(inst: Instance) returns (sol: Solution)
    requires ValidInstance(inst)
    ensures |sol.operationSequence| == TotalOps(inst) && |sol.startTimes| == |sol.operationSequence|
    ensures ValidSequence(inst, sol.operationSequence)
    ensures InJobOrder(sol.operationSequence) && AllJobsComplete(inst, sol.operationSequence)
    ensures IsDecoded(inst, sol.operationSequence, sol.startTimes)
    ensures IsGreedyOrder(inst, sol.operationSequence, sol.startTimes)
    ensures IsMakespan(inst, sol.operationSequence, sol.startTimes, sol.makespan)
    ensures TotalOps(inst) == 0 ==> sol == EmptySolution
  {
    var total := TotalOps(inst);
    var nextOp: seq<nat> := seq(|inst.jobs|, _ => 0);
    var machineAvailable: seq<int> := seq(inst.numMachines, _ => 0);
    var jobFinish: seq<int> := seq(|inst.jobs|, _ => 0);
    var s: seq<OpRef> := [];
    var starts: seq<int> := [];
    SumZeros(|inst.jobs|);

    while |s| < total
      invariant DispatchState(inst, s, starts, nextOp, machineAvailable, jobFinish)
      invariant |s| <= total
      decreases total - |s|
    {
      SomeJobUnfinished(inst, nextOp, |inst.jobs|);
      var best, bestStart := SelectNext(inst, nextOp, machineAvailable, jobFinish);
      SelectionIsGreedyChoice(inst, s, starts, nextOp, machineAvailable, jobFinish, best, bestStart);
      DispatchStep(inst, s, starts, nextOp, machineAvailable, jobFinish, best, bestStart);

      var r := OpRef(best, nextOp[best]);
      var op := OpAt(inst, r);
      s := s + [r];
      starts := starts + [bestStart];
      var finish := bestStart + op.processingTime;
      machineAvailable := machineAvailable[op.machineId := finish];
      jobFinish := jobFinish[best := finish];
      nextOp := nextOp[best := nextOp[best] + 1];
    }

    DispatchComplete(inst, s, starts, nextOp, machineAvailable, jobFinish);
    var decoded, makespan := CalculateMakespan(inst, Solution(s, starts, 0));
    DecodedUnique(inst, s, starts, decoded.startTimes);
    sol := decoded;
  }

  /** Job `j`'s entries are counted in order: the count rises by one at each of them. */
  lemma {:induction false} CountReaches(s: seq<OpRef>, j: nat, o: nat, k: nat)
    requires InJobOrder(s) && k <= |s| && o < CountJob(s[..k], j)
    ensures exists i :: 0 <= i < k && s[i] == OpRef(j, o)
    decreases k
  {
    assert s[..k][..k - 1] == s[..k - 1];
    if o < CountJob(s[..k - 1], j) {
      CountReaches(s, j, o, k - 1);
      var i :| 0 <= i < k - 1 && s[i] == OpRef(j, o);
    } else {
      assert s[k - 1].job == j && s[k - 1].op == CountJob(s[..k - 1], j);
    }
  }

  /** Counts never decrease along a longer prefix. */
  lemma {:induction false} CountMonotone(s: seq<OpRef>, j: nat, i: nat, k: nat)
    requires i <= k <= |s|
    ensures CountJob(s[..i], j) <= CountJob(s[..k], j)
    decreases k - i
  {
    if i < k {
      CountMonotone(s, j, i, k - 1);
      assert s[..k][..k - 1] == s[..k - 1];
    }
  }

  /**
    A complete order in job order holds every operation of the instance
    exactly once: it contains each `(j, o)` with `o` below job `j`'s length,
    and no entry twice.
   */
  lemma JobOrderCoversEachOnce(inst: Instance, s: seq<OpRef>)
    requires InJobOrder(s) && AllJobsComplete(inst, s)
    ensures forall j, o :: 0 <= j < |inst.jobs| && 0 <= o < |inst.jobs[j].operations| ==> OpRef(j, o) in s
    ensures forall i, k :: 0 <= i < k < |s| ==> s[i] != s[k]
  {
    assert s[..|s|] == s;
    forall j, o | 0 <= j < |inst.jobs| && 0 <= o < |inst.jobs[j].operations|
      ensures OpRef(j, o) in s
    {
      CountReaches(s, j, o, |s|);
    }
    forall i, k | 0 <= i < k < |s|
      ensures s[i] != s[k]
    {
      if s[i].job == s[k].job {
        CountMonotone(s, s[i].job, i + 1, k);
        assert s[..i + 1][..i] == s[..i];
      }
    }
  }
}
