/**
  The problem instance and the solution record shared by every solver and by
  the GUI (include/jobshop/core.hpp and include/jobshop/solution.hpp).
  C++ `size_t` fields are `nat` and `int` fields are unbounded `int`.
 */
module Core {

  /** One step of a job: the machine it needs and for how long. */
  datatype Operation = Operation(jobId: nat, operationId: nat, machineId: nat, processingTime: int)

  /** A job: its identifier and its operations in technological order. */
  datatype Job = Job(jobId: nat, operations: seq<Operation>)

  /**
    The jobs, the number of machines, and the machine-to-machine transport
    matrix (`transportTimes[a][b]` is the time to move a job from machine `a`
    to machine `b`).
   */
  datatype Instance = Instance(jobs: seq<Job>, numMachines: nat, transportTimes: seq<seq<int>>)

  /** A `(job_id, operation_id)` pair of a dispatch order. */
  datatype OpRef = OpRef(job: nat, op: nat)

  /**
    A dispatch order, the start time of each entry (parallel to the order once
    decoded) and the makespan, which a default-constructed solution has as 0.
   */
  datatype Solution = Solution(operationSequence: seq<OpRef>, startTimes: seq<int>, makespan: int)

  /** A default-constructed `Solution`. */
  const EmptySolution := Solution([], [], 0)

  /**
    The shape every solver indexes without checking: every operation names an
    existing machine and the transport matrix is `numMachines` square.
   */
  predicate ValidInstance(inst: Instance) {
    && |inst.transportTimes| == inst.numMachines
    && (forall a :: 0 <= a < |inst.transportTimes| ==> |inst.transportTimes[a]| == inst.numMachines)
    && (forall j, k :: 0 <= j < |inst.jobs| && 0 <= k < |inst.jobs[j].operations| ==>
          inst.jobs[j].operations[k].machineId < inst.numMachines)
  }

  /** Every job's identifier is its position, as the instance reader assigns them. */
  predicate JobIdsAreIndices(inst: Instance) {
    forall j :: 0 <= j < |inst.jobs| ==> inst.jobs[j].jobId == j
  }

  /** Processing times are non-negative. */
  predicate NonNegativeTimes(inst: Instance) {
    forall j, k :: 0 <= j < |inst.jobs| && 0 <= k < |inst.jobs[j].operations| ==>
      inst.jobs[j].operations[k].processingTime >= 0
  }

  /** Transport times are non-negative. */
  predicate NonNegativeTransport(inst: Instance) {
    forall a, b :: 0 <= a < |inst.transportTimes| && 0 <= b < |inst.transportTimes[a]| ==>
      inst.transportTimes[a][b] >= 0
  }

  /** `r` names an existing operation: `instance.jobs[job].operations[op]` is in range. */
  predicate ValidRef(inst: Instance, r: OpRef) {
    r.job < |inst.jobs| && r.op < |inst.jobs[r.job].operations|
  }

  predicate ValidSequence(inst: Instance, s: seq<OpRef>) {
    forall i :: 0 <= i < |s| ==> ValidRef(inst, s[i])
  }

  function OpAt(inst: Instance, r: OpRef): Operation
    requires ValidRef(inst, r)
  {
    inst.jobs[r.job].operations[r.op]
  }

  function MachineOf(inst: Instance, r: OpRef): nat
    requires ValidRef(inst, r)
  {
    OpAt(inst, r).machineId
  }

  function ProcessingTime(inst: Instance, r: OpRef): int
    requires ValidRef(inst, r)
  {
    OpAt(inst, r).processingTime
  }

  /**
    Time to bring job `r.job` to the machine of `r`: nothing for a job's first
    operation, otherwise the matrix entry from the previous operation's machine.
   */
  function TransportTime(inst: Instance, r: OpRef): int
    requires ValidInstance(inst) && ValidRef(inst, r)
  {
    if r.op == 0 then 0
    else inst.transportTimes[MachineOf(inst, OpRef(r.job, r.op - 1))][MachineOf(inst, r)]
  }

  function Max(a: int, b: int): int {
    if a >= b then a else b
  }

  /** Number of operations over the first `k` jobs. */
  function OpsOfFirst(jobs: seq<Job>, k: nat): nat
    requires k <= |jobs|
    decreases k
  {
    if k == 0 then 0 else OpsOfFirst(jobs, k - 1) + |jobs[k - 1].operations|
  }

  /** Number of operations over all jobs (`total_ops` in the solvers). */
  function TotalOps(inst: Instance): nat {
    OpsOfFirst(inst.jobs, |inst.jobs|)
  }

  /** Sum of a vector of counters. */
  function Sum(xs: seq<nat>): nat
    decreases |xs|
  {
    if |xs| == 0 then 0 else Sum(xs[..|xs| - 1]) + xs[|xs| - 1]
  }

  /** Counters bounded by the job lengths and summing to less than the total leave some job unfinished. */
  lemma {:induction false} SomeJobUnfinished(inst: Instance, next: seq<nat>, k: nat)
    requires k <= |inst.jobs| && |next| == k
    requires forall j :: 0 <= j < k ==> next[j] <= |inst.jobs[j].operations|
    requires Sum(next) < OpsOfFirst(inst.jobs, k)
    ensures exists j :: 0 <= j < k && next[j] < |inst.jobs[j].operations|
    decreases k
  {
    if next[k - 1] < |inst.jobs[k - 1].operations| {
    } else {
      SomeJobUnfinished(inst, next[..k - 1], k - 1);
      var j :| 0 <= j < k - 1 && next[..k - 1][j] < |inst.jobs[j].operations|;
      assert next[j] < |inst.jobs[j].operations|;
    }
  }

  /** Counters bounded by the job lengths sum to the total only when every job is complete. */
  lemma {:induction false} SumReachesTotal(inst: Instance, next: seq<nat>, k: nat)
    requires k <= |inst.jobs| && |next| == k
    requires forall j :: 0 <= j < k ==> next[j] <= |inst.jobs[j].operations|
    ensures Sum(next) <= OpsOfFirst(inst.jobs, k)
    ensures Sum(next) == OpsOfFirst(inst.jobs, k) ==> forall j :: 0 <= j < k ==> next[j] == |inst.jobs[j].operations|
    decreases k
  {
    if k > 0 {
      SumReachesTotal(inst, next[..k - 1], k - 1);
      assert forall j :: 0 <= j < k - 1 ==> next[..k - 1][j] == next[j];
    }
  }

  /** Incrementing one counter adds one to the sum. */
  lemma {:induction false} SumIncrement(xs: seq<nat>, j: nat)
    requires j < |xs|
    ensures Sum(xs[j := xs[j] + 1]) == Sum(xs) + 1
    decreases |xs|
  {
    var ys := xs[j := xs[j] + 1];
    if j < |xs| - 1 {
      assert ys[..|ys| - 1] == xs[..|xs| - 1][j := xs[j] + 1];
      SumIncrement(xs[..|xs| - 1], j);
    } else {
      assert ys[..|ys| - 1] == xs[..|xs| - 1];
    }
  }

  /** A vector of zeros sums to zero. */
  lemma {:induction false} SumZeros(n: nat)
    ensures Sum(seq(n, _ => 0)) == 0
    decreases n
  {
    if n > 0 {
      assert seq(n, _ => 0)[..n - 1] == seq(n - 1, _ => 0);
      SumZeros(n - 1);
    }
  }

  // ----- dispatch-order bookkeeping -----

  /** How many entries of `s` belong to job `j`. */
  function CountJob(s: seq<OpRef>, j: nat): nat
    decreases |s|
  {
    if |s| == 0 then 0
    else CountJob(s[..|s| - 1], j) + (if s[|s| - 1].job == j then 1 else 0)
  }

  /** Every entry is its job's next operation: its index is the number of earlier entries of that job. */
  predicate InJobOrder(s: seq<OpRef>) {
    forall i :: 0 <= i < |s| ==> s[i].op == CountJob(s[..i], s[i].job)
  }

  /** Every job of the instance is dispatched completely. */
  predicate AllJobsComplete(inst: Instance, s: seq<OpRef>) {
    forall j :: 0 <= j < |inst.jobs| ==> CountJob(s, j) == |inst.jobs[j].operations|
  }

  /** Appending an entry adds one to its own job's count only. */
  lemma CountAppend(s: seq<OpRef>, r: OpRef)
    ensures forall j :: CountJob(s + [r], j) == CountJob(s, j) + (if r.job == j then 1 else 0)
  {
    assert (s + [r])[..|s|] == s;
  }
}
