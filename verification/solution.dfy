/**
  The schedule decoder `calculate_makespan` (src/core/solution.cpp): it
  recomputes every start time of a dispatch order from machine availability,
  job precedence and transport, then takes the latest finish as the makespan.

  The reference definitions below say what the decoder's two vectors hold
  without mentioning the vectors: after dispatching a prefix, the
  availability of machine `m` is the finish of the last entry of the prefix
  that runs on `m` (0 if none), and likewise per job.
 */
module Decoder {
  import opened Core

  /** Finish time of an entry started at `start`. */
  function FinishOf(inst: Instance, r: OpRef, start: int): int
    requires ValidRef(inst, r)
  {
    start + ProcessingTime(inst, r)
  }

  /** Finish of the last entry of `s` that runs on machine `m`, or 0 when there is none. */
  function MachineReady(inst: Instance, s: seq<OpRef>, starts: seq<int>, m: nat): int
    requires |starts| == |s| && ValidSequence(inst, s)
    decreases |s|
  {
    if |s| == 0 then 0
    else if MachineOf(inst, s[|s| - 1]) == m then FinishOf(inst, s[|s| - 1], starts[|s| - 1])
    else MachineReady(inst, s[..|s| - 1], starts[..|s| - 1], m)
  }

  /** Finish of the last entry of `s` that belongs to job `j`, or 0 when there is none. */
  function JobReady(inst: Instance, s: seq<OpRef>, starts: seq<int>, j: nat): int
    requires |starts| == |s| && ValidSequence(inst, s)
    decreases |s|
  {
    if |s| == 0 then 0
    else if s[|s| - 1].job == j then FinishOf(inst, s[|s| - 1], starts[|s| - 1])
    else JobReady(inst, s[..|s| - 1], starts[..|s| - 1], j)
  }

  /**
    The earliest start of `r` after the entries `s` (started at `starts`): when
    its machine is free and its job has arrived from the previous machine.
   */
  function EarliestStart(inst: Instance, s: seq<OpRef>, starts: seq<int>, r: OpRef): int
    requires ValidInstance(inst) && ValidSequence(inst, s) && ValidRef(inst, r) && |starts| == |s|
  {
    Max(MachineReady(inst, s, starts, MachineOf(inst, r)),
        JobReady(inst, s, starts, r.job) + TransportTime(inst, r))
  }

  /** Entry `i` starts at its earliest start after the entries before it. */
  predicate StartsEarliest(inst: Instance, s: seq<OpRef>, starts: seq<int>, i: nat)
    requires ValidInstance(inst) && ValidSequence(inst, s) && |starts| == |s| && i < |s|
  {
    starts[i] == EarliestStart(inst, s[..i], starts[..i], s[i])
  }

  /** `starts` holds, for every entry of `s`, its earliest start after the entries before it. */
  predicate IsDecoded(inst: Instance, s: seq<OpRef>, starts: seq<int>)
    requires ValidInstance(inst) && ValidSequence(inst, s)
  {
    && |starts| == |s|
    && forall i :: 0 <= i < |s| ==> StartsEarliest(inst, s, starts, i)
  }

  /** The two lower bounds a decoded start satisfies. */
  lemma DecodedStartBounds(inst: Instance, s: seq<OpRef>, starts: seq<int>, i: nat)
    requires ValidInstance(inst) && ValidSequence(inst, s)
    requires IsDecoded(inst, s, starts) && i < |s|
    ensures starts[i] >= MachineReady(inst, s[..i], starts[..i], MachineOf(inst, s[i]))
    ensures starts[i] >= JobReady(inst, s[..i], starts[..i], s[i].job) + TransportTime(inst, s[i])
  {
    assert StartsEarliest(inst, s, starts, i);
  }

  /** `m` is the latest finish of the decoded entries, or 0 when every finish is earlier. */
  predicate IsMakespan(inst: Instance, s: seq<OpRef>, starts: seq<int>, m: int)
    requires ValidSequence(inst, s) && |starts| == |s|
  {
    && m >= 0
    && (forall i :: 0 <= i < |s| ==> FinishOf(inst, s[i], starts[i]) <= m)
    && (m == 0 || exists i :: 0 <= i < |s| && m == FinishOf(inst, s[i], starts[i]))
  }

  /** Appending one entry keeps a decoded prefix decoded exactly when the new start is its earliest start. */
  lemma DecodedAppend(inst: Instance, s: seq<OpRef>, starts: seq<int>, r: OpRef, t: int)
    requires ValidInstance(inst) && ValidSequence(inst, s) && ValidRef(inst, r)
    requires IsDecoded(inst, s, starts)
    requires t == EarliestStart(inst, s, starts, r)
    ensures ValidSequence(inst, s + [r])
    ensures IsDecoded(inst, s + [r], starts + [t])
  {
    var s', starts' := s + [r], starts + [t];
    assert s'[..|s|] == s && starts'[..|s|] == starts;
    forall i | 0 <= i < |s'|
      ensures StartsEarliest(inst, s', starts', i)
    {
      if i < |s| {
        assert s'[..i] == s[..i] && starts'[..i] == starts[..i];
        assert StartsEarliest(inst, s, starts, i);
      }
    }
  }

  /** Reading the availability after one more entry. */
  lemma ReadyAppend(inst: Instance, s: seq<OpRef>, starts: seq<int>, r: OpRef, t: int)
    requires ValidSequence(inst, s) && ValidRef(inst, r) && |starts| == |s|
    ensures ValidSequence(inst, s + [r])
    ensures forall m :: (MachineReady(inst, s + [r], starts + [t], m) ==
      if MachineOf(inst, r) == m then FinishOf(inst, r, t) else MachineReady(inst, s, starts, m))
    ensures forall j :: (JobReady(inst, s + [r], starts + [t], j) ==
      if r.job == j then FinishOf(inst, r, t) else JobReady(inst, s, starts, j))
  {
    assert (s + [r])[..|s|] == s && (starts + [t])[..|s|] == starts;
  }

  /** The start times of `s`, computed front to back (the functional form of the decoder). */
  function Decode(inst: Instance, s: seq<OpRef>): (starts: seq<int>)
    requires ValidInstance(inst) && ValidSequence(inst, s)
    ensures IsDecoded(inst, s, starts)
    decreases |s|
  {
    if |s| == 0 then []
    else
      var prefix := s[..|s| - 1];
      var earlier := Decode(inst, prefix);
      var t := EarliestStart(inst, prefix, earlier, s[|s| - 1]);
      DecodedAppend(inst, prefix, earlier, s[|s| - 1], t);
      assert prefix + [s[|s| - 1]] == s;
      earlier + [t]
  }

  /** The latest finish of the entries, never below 0 (`max_finish` starts at 0). */
  function MaxFinish(inst: Instance, s: seq<OpRef>, starts: seq<int>): (m: int)
    requires ValidSequence(inst, s) && |starts| == |s|
    ensures IsMakespan(inst, s, starts, m)
    decreases |s|
  {
    if |s| == 0 then 0
    else
      var n := |s| - 1;
      var earlier := MaxFinish(inst, s[..n], starts[..n]);
      assert forall i :: 0 <= i < n ==> s[..n][i] == s[i] && starts[..n][i] == starts[i];
      Max(earlier, FinishOf(inst, s[n], starts[n]))
  }

  /** The makespan `calculate_makespan` returns for a dispatch order. */
  function SequenceMakespan(inst: Instance, s: seq<OpRef>): int
    requires ValidInstance(inst) && ValidSequence(inst, s)
  {
    MaxFinish(inst, s, Decode(inst, s))
  }

  /** The second loop of `calculate_makespan`: the latest finish time, or 0 for an empty order. */
  method LatestFinish(inst: Instance, s: seq<OpRef>, starts: seq<int>) returns (maxFinish: int)
    requires ValidSequence(inst, s) && |starts| == |s|
    ensures IsMakespan(inst, s, starts, maxFinish)
  {
    var n := |s|;
    maxFinish := 0;
    var i := 0;
    while i < n
      invariant 0 <= i <= n
      invariant maxFinish >= 0
      invariant forall k :: 0 <= k < i ==> FinishOf(inst, s[k], starts[k]) <= maxFinish
      invariant maxFinish == 0 || exists k :: 0 <= k < i && maxFinish == FinishOf(inst, s[k], starts[k])
    {
      var finish := starts[i] + ProcessingTime(inst, s[i]);
      if finish > maxFinish {
        maxFinish := finish;
      }
      i := i + 1;
    }
  }

  /**
    `calculate_makespan`: overwrites the start times with one decoded start per
    entry of the (unchanged) order, and stores and returns the makespan.
   */
  method CalculateMakespan(inst: Instance, sol: Solution) returns (decoded: Solution, makespan: int)
    requires ValidInstance(inst) && ValidSequence(inst, sol.operationSequence)
    ensures decoded.operationSequence == sol.operationSequence
    ensures IsDecoded(inst, decoded.operationSequence, decoded.startTimes)
    ensures IsMakespan(inst, decoded.operationSequence, decoded.startTimes, makespan)
    ensures decoded.makespan == makespan
  {
    var s := sol.operationSequence;
    var n := |s|;
    var starts: seq<int> := [];
    var machineAvailable: seq<int> := seq(inst.numMachines, _ => 0);
    var jobLastFinish: seq<int> := seq(|inst.jobs|, _ => 0);

    var i := 0;
    while i < n
      invariant 0 <= i <= n && |starts| == i
      invariant |machineAvailable| == inst.numMachines && |jobLastFinish| == |inst.jobs|
      invariant IsDecoded(inst, s[..i], starts)
      invariant forall m :: 0 <= m < inst.numMachines ==>
        machineAvailable[m] == MachineReady(inst, s[..i], starts, m)
      invariant forall j :: 0 <= j < |inst.jobs| ==>
        jobLastFinish[j] == JobReady(inst, s[..i], starts, j)
    {
      var r := s[i];
      var op := OpAt(inst, r);
      var transport := 0;
      if r.op > 0 {
        var previousMachine := MachineOf(inst, OpRef(r.job, r.op - 1));
        transport := inst.transportTimes[previousMachine][op.machineId];
      }
      var earliestStart := Max(machineAvailable[op.machineId], jobLastFinish[r.job] + transport);
      DecodedAppend(inst, s[..i], starts, r, earliestStart);
      ReadyAppend(inst, s[..i], starts, r, earliestStart);
      assert s[..i + 1] == s[..i] + [r];
      starts := starts + [earliestStart];
      var finish := earliestStart + op.processingTime;
      machineAvailable := machineAvailable[op.machineId := finish];
      jobLastFinish := jobLastFinish[r.job := finish];
      i := i + 1;
    }
    assert s[..n] == s;

    var maxFinish := LatestFinish(inst, s, starts);
    decoded := Solution(s, starts, maxFinish);
    makespan := maxFinish;
  }

  /** Two decodings of the same order agree on every start time. */
  lemma {:induction false} DecodedUnique(inst: Instance, s: seq<OpRef>, a: seq<int>, b: seq<int>)
    requires ValidInstance(inst) && ValidSequence(inst, s)
    requires IsDecoded(inst, s, a) && IsDecoded(inst, s, b)
    ensures a == b
  {
    var k := 0;
    while k < |s|
      invariant 0 <= k <= |s|
      invariant a[..k] == b[..k]
    {
      assert StartsEarliest(inst, s, a, k) && StartsEarliest(inst, s, b, k);
      assert a[..k + 1] == a[..k] + [a[k]] && b[..k + 1] == b[..k] + [b[k]];
      k := k + 1;
    }
    assert a == a[..|s|] && b == b[..|s|];
  }

  /** Any decoding and makespan are the ones SequenceMakespan computes. */
  lemma DecodedMakespan(inst: Instance, s: seq<OpRef>, starts: seq<int>, m: int)
    requires ValidInstance(inst) && ValidSequence(inst, s)
    requires IsDecoded(inst, s, starts) && IsMakespan(inst, s, starts, m)
    ensures starts == Decode(inst, s)
    ensures m == SequenceMakespan(inst, s)
  {
    DecodedUnique(inst, s, starts, Decode(inst, s));
    MakespanUnique(inst, s, starts, m, SequenceMakespan(inst, s));
  }

  /** Decoding one more entry extends the decoding of the prefix by that entry's earliest start. */
  lemma DecodeAppend(inst: Instance, s: seq<OpRef>, r: OpRef)
    requires ValidInstance(inst) && ValidSequence(inst, s) && ValidRef(inst, r)
    ensures ValidSequence(inst, s + [r])
    ensures Decode(inst, s + [r]) == Decode(inst, s) + [EarliestStart(inst, s, Decode(inst, s), r)]
  {
    var t := EarliestStart(inst, s, Decode(inst, s), r);
    DecodedAppend(inst, s, Decode(inst, s), r, t);
    DecodedUnique(inst, s + [r], Decode(inst, s) + [t], Decode(inst, s + [r]));
  }

  /** The makespan after one more entry is the larger of the old makespan and that entry's finish. */
  lemma MakespanAppend(inst: Instance, s: seq<OpRef>, starts: seq<int>, r: OpRef, t: int)
    requires ValidSequence(inst, s) && ValidRef(inst, r) && |starts| == |s|
    ensures ValidSequence(inst, s + [r])
    ensures MaxFinish(inst, s + [r], starts + [t]) == Max(MaxFinish(inst, s, starts), FinishOf(inst, r, t))
  {
    var s', starts' := s + [r], starts + [t];
    assert s'[..|s|] == s && starts'[..|s|] == starts;
  }

  /** The makespan of a set of finishes is unique. */
  lemma MakespanUnique(inst: Instance, s: seq<OpRef>, starts: seq<int>, m1: int, m2: int)
    requires ValidSequence(inst, s) && |starts| == |s|
    requires IsMakespan(inst, s, starts, m1) && IsMakespan(inst, s, starts, m2)
    ensures m1 == m2
  {
  }

  /**
    Decoding is idempotent: `calculate_makespan` discards the previous start
    times, so running it on its own output (or on any solution with the same
    order) gives identical start times and makespan.
   */
  lemma RecalculateIdempotent(inst: Instance, s: seq<OpRef>, first: Solution, second: Solution)
    requires ValidInstance(inst) && ValidSequence(inst, s)
    requires first.operationSequence == s && second.operationSequence == s
    requires IsDecoded(inst, s, first.startTimes) && IsDecoded(inst, s, second.startTimes)
    requires IsMakespan(inst, s, first.startTimes, first.makespan)
    requires IsMakespan(inst, s, second.startTimes, second.makespan)
    ensures first == second
  {
    DecodedUnique(inst, s, first.startTimes, second.startTimes);
    MakespanUnique(inst, s, first.startTimes, first.makespan, second.makespan);
  }

  /** An earlier entry on machine `m` finishes no later than the machine's availability after a longer prefix. */
  lemma {:induction false} MachineReadyCovers(inst: Instance, s: seq<OpRef>, starts: seq<int>, i: nat, k: nat)
    requires ValidInstance(inst) && ValidSequence(inst, s) && NonNegativeTimes(inst)
    requires IsDecoded(inst, s, starts)
    requires i < k <= |s|
    ensures FinishOf(inst, s[i], starts[i]) <= MachineReady(inst, s[..k], starts[..k], MachineOf(inst, s[i]))
    decreases k
  {
    var m := MachineOf(inst, s[i]);
    assert s[..k][..k - 1] == s[..k - 1] && starts[..k][..k - 1] == starts[..k - 1];
    if i < k - 1 {
      MachineReadyCovers(inst, s, starts, i, k - 1);
      if MachineOf(inst, s[k - 1]) == m {
        DecodedStartBounds(inst, s, starts, k - 1);
        assert ProcessingTime(inst, s[k - 1]) >= 0;
      }
    }
  }

  /** Same for an earlier entry of job `j` and the job's availability. */
  lemma {:induction false} JobReadyCovers(inst: Instance, s: seq<OpRef>, starts: seq<int>, i: nat, k: nat)
    requires ValidInstance(inst) && ValidSequence(inst, s)
    requires NonNegativeTimes(inst) && NonNegativeTransport(inst)
    requires IsDecoded(inst, s, starts)
    requires i < k <= |s|
    ensures FinishOf(inst, s[i], starts[i]) <= JobReady(inst, s[..k], starts[..k], s[i].job)
    decreases k
  {
    var j := s[i].job;
    assert s[..k][..k - 1] == s[..k - 1] && starts[..k][..k - 1] == starts[..k - 1];
    if i < k - 1 {
      JobReadyCovers(inst, s, starts, i, k - 1);
      if s[k - 1].job == j {
        assert TransportTime(inst, s[k - 1]) >= 0;
        DecodedStartBounds(inst, s, starts, k - 1);
        assert ProcessingTime(inst, s[k - 1]) >= 0;
      }
    }
  }

  /**
    With non-negative processing times a decoded order never overlaps two
    operations on one machine: each starts at or after every earlier entry on
    that machine has finished.
   */
  lemma NoMachineOverlap(inst: Instance, s: seq<OpRef>, starts: seq<int>, i: nat, k: nat)
    requires ValidInstance(inst) && ValidSequence(inst, s) && NonNegativeTimes(inst)
    requires IsDecoded(inst, s, starts)
    requires i < k < |s| && MachineOf(inst, s[i]) == MachineOf(inst, s[k])
    ensures FinishOf(inst, s[i], starts[i]) <= starts[k]
  {
    MachineReadyCovers(inst, s, starts, i, k);
    DecodedStartBounds(inst, s, starts, k);
  }

  /**
    With non-negative processing and transport times, an entry starts no
    earlier than every earlier entry of its own job has finished.
   */
  lemma JobOrderRespected(inst: Instance, s: seq<OpRef>, starts: seq<int>, i: nat, k: nat)
    requires ValidInstance(inst) && ValidSequence(inst, s)
    requires NonNegativeTimes(inst) && NonNegativeTransport(inst)
    requires IsDecoded(inst, s, starts)
    requires i < k < |s| && s[i].job == s[k].job
    ensures FinishOf(inst, s[i], starts[i]) <= starts[k]
  {
    JobReadyCovers(inst, s, starts, i, k);
    DecodedStartBounds(inst, s, starts, k);
    assert TransportTime(inst, s[k]) >= 0;
  }

  /** A decoded start is never negative: machines start free at time 0. */
  lemma {:induction false} DecodedStartsNonNegative(inst: Instance, s: seq<OpRef>, starts: seq<int>, k: nat)
    requires ValidInstance(inst) && ValidSequence(inst, s) && NonNegativeTimes(inst)
    requires IsDecoded(inst, s, starts)
    requires k <= |s|
    ensures forall i :: 0 <= i < k ==> starts[i] >= 0
    ensures forall m :: MachineReady(inst, s[..k], starts[..k], m) >= 0
    decreases k
  {
    if k > 0 {
      DecodedStartsNonNegative(inst, s, starts, k - 1);
      assert s[..k][..k - 1] == s[..k - 1] && starts[..k][..k - 1] == starts[..k - 1];
      DecodedStartBounds(inst, s, starts, k - 1);
      assert ProcessingTime(inst, s[k - 1]) >= 0;
    }
  }
}
