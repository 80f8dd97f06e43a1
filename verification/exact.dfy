/**
  The pure parts of the A* solver `solve_exact` (src/exact/exact.cpp): the
  state key, the lower-bound heuristic, the priority order of the queue, the
  successor of a state, the pruning rules and the reconstruction of the
  schedule from the parent links. The search loop itself is not modelled;
  one iteration of it is.
 */
module Exact {
  import opened Wrappers
  import opened Text
  import opened Core
  import opened Decoder

  // ----- make_state_key -----

  /**
    `make_state_key`: the three vectors, each written as comma-separated
    decimals, separated by '|'.
   */
  function StateKey(jobNext: seq<nat>, machineAvail: seq<int>, jobLastFinish: seq<int>): (key: string)
    ensures |key| >= 2
  {
    var tail := IntList(machineAvail, ',') + ['|'] + IntList(jobLastFinish, ',');
    assert Join([IntList(machineAvail, ','), IntList(jobLastFinish, ',')], '|') == tail;
    Join([IntList(jobNext, ','), IntList(machineAvail, ','), IntList(jobLastFinish, ',')], '|')
  }

  /** The three vectors a state key was made from. */
  datatype KeyParts = KeyParts(jobNext: seq<int>, machineAvail: seq<int>, jobLastFinish: seq<int>)

  /** Inverse of StateKey: `None` unless the key has exactly three '|'-separated parts. */
  function ParseStateKey(key: string): Option<KeyParts> {
    var parts := Split(key, '|');
    if |parts| != 3 then None
    else Some(KeyParts(ParseIntList(parts[0], ','), ParseIntList(parts[1], ','), ParseIntList(parts[2], ',')))
  }

  lemma StateKeyRoundTrip(jobNext: seq<nat>, machineAvail: seq<int>, jobLastFinish: seq<int>)
    ensures ParseStateKey(StateKey(jobNext, machineAvail, jobLastFinish))
         == Some(KeyParts(jobNext, machineAvail, jobLastFinish))
  {
    var parts := [IntList(jobNext, ','), IntList(machineAvail, ','), IntList(jobLastFinish, ',')];
    IntListAlphabet(jobNext, ',', '|');
    IntListAlphabet(machineAvail, ',', '|');
    IntListAlphabet(jobLastFinish, ',', '|');
    SplitJoin(parts, '|');
    IntListRoundTrip(jobNext, ',');
    IntListRoundTrip(machineAvail, ',');
    IntListRoundTrip(jobLastFinish, ',');
  }

  /** Distinct states have distinct keys, whatever the vector lengths. */
  lemma StateKeyInjective(a1: seq<nat>, b1: seq<int>, c1: seq<int>, a2: seq<nat>, b2: seq<int>, c2: seq<int>)
    requires StateKey(a1, b1, c1) == StateKey(a2, b2, c2)
    ensures a1 == a2 && b1 == b2 && c1 == c2
  {
    StateKeyRoundTrip(a1, b1, c1);
    StateKeyRoundTrip(a2, b2, c2);
  }

  // ----- heuristic_lb -----

  /** `h` is the largest of 0, every machine availability and every job's last finish plus its remaining work. */
  predicate IsLowerBound(machineAvail: seq<int>, jobLastFinish: seq<int>, remain: seq<int>, h: int)
    requires |remain| <= |jobLastFinish|
  {
    && h >= 0
    && (forall m :: 0 <= m < |machineAvail| ==> machineAvail[m] <= h)
    && (forall j :: 0 <= j < |remain| ==> jobLastFinish[j] + remain[j] <= h)
    && (|| h == 0
        || (exists m :: 0 <= m < |machineAvail| && machineAvail[m] == h)
        || (exists j :: 0 <= j < |remain| && jobLastFinish[j] + remain[j] == h))
  }

  /** The characterisation fixes the bound. */
  lemma LowerBoundUnique(machineAvail: seq<int>, jobLastFinish: seq<int>, remain: seq<int>, h1: int, h2: int)
    requires |remain| <= |jobLastFinish|
    requires IsLowerBound(machineAvail, jobLastFinish, remain, h1)
    requires IsLowerBound(machineAvail, jobLastFinish, remain, h2)
    ensures h1 == h2
  {
  }

  /** Largest entry, counting from 0. */
  function MaxFromZero(xs: seq<int>): (m: int)
    ensures m >= 0
    ensures forall i :: 0 <= i < |xs| ==> xs[i] <= m
    ensures m == 0 || exists i :: 0 <= i < |xs| && xs[i] == m
    decreases |xs|
  {
    if |xs| == 0 then 0
    else
      var n := |xs| - 1;
      var earlier := MaxFromZero(xs[..n]);
      assert forall i :: 0 <= i < n ==> xs[..n][i] == xs[i];
      Max(earlier, xs[n])
  }

  /** Each job's last finish plus its remaining processing time. */
  function JobBounds(jobLastFinish: seq<int>, remain: seq<int>): (bounds: seq<int>)
    requires |remain| <= |jobLastFinish|
    ensures |bounds| == |remain|
    ensures forall j :: 0 <= j < |remain| ==> bounds[j] == jobLastFinish[j] + remain[j]
  {
    seq(|remain|, j requires 0 <= j < |remain| => jobLastFinish[j] + remain[j])
  }

  /** The heuristic as a value. */
  function LowerBound(machineAvail: seq<int>, jobLastFinish: seq<int>, remain: seq<int>): (h: int)
    requires |remain| <= |jobLastFinish|
    ensures IsLowerBound(machineAvail, jobLastFinish, remain, h)
  {
    var bounds := JobBounds(jobLastFinish, remain);
    var h := Max(MaxFromZero(machineAvail), MaxFromZero(bounds));
    assert forall j :: 0 <= j < |remain| ==> bounds[j] == jobLastFinish[j] + remain[j];
    h
  }

  /**
    `heuristic_lb`: the larger of the latest machine availability and the
    latest job completion when every job runs its remaining operations back
    to back, both counted from 0.
   */
  method HeuristicLb(machineAvail: seq<int>, jobLastFinish: seq<int>, remain: seq<int>) returns (h: int)
    requires |remain| <= |jobLastFinish|
    ensures IsLowerBound(machineAvail, jobLastFinish, remain, h)
  {
    var maxMachine := 0;
    var m := 0;
    while m < |machineAvail|
      invariant 0 <= m <= |machineAvail| && maxMachine >= 0
      invariant forall i :: 0 <= i < m ==> machineAvail[i] <= maxMachine
      invariant maxMachine == 0 || exists i :: 0 <= i < m && machineAvail[i] == maxMachine
    {
      if machineAvail[m] > maxMachine {
        maxMachine := machineAvail[m];
      }
      m := m + 1;
    }
    var maxJob := 0;
    var j := 0;
    while j < |remain|
      invariant 0 <= j <= |remain| && maxJob >= 0
      invariant forall i :: 0 <= i < j ==> jobLastFinish[i] + remain[i] <= maxJob
      invariant maxJob == 0 || exists i :: 0 <= i < j && jobLastFinish[i] + remain[i] == maxJob
    {
      var candidate := jobLastFinish[j] + remain[j];
      if candidate > maxJob {
        maxJob := candidate;
      }
      j := j + 1;
    }
    h := Max(maxMachine, maxJob);
  }

  // ----- PQItem -----

  /** A queue entry: estimated total `f = max(g, h)`, makespan so far `g`, and the state key. */
  datatype PQItem = PQItem(f: int, g: int, key: string)

  /** `PQItem::operator<`: `a` is served after `b` by the max-heap. */
  predicate Less(a: PQItem, b: PQItem) {
    if a.f != b.f then a.f > b.f else a.g < b.g
  }

  /** The order is a strict weak order: irreflexive, transitive, and tied exactly on equal `(f, g)`. */
  lemma LessIsStrictWeakOrder(a: PQItem, b: PQItem, c: PQItem)
    ensures !Less(a, a)
    ensures Less(a, b) ==> !Less(b, a)
    ensures Less(a, b) && Less(b, c) ==> Less(a, c)
    ensures !Less(a, b) && !Less(b, a) <==> a.f == b.f && a.g == b.g
  {
  }

  /** `t` may be served next: no queued item is preferred to it. */
  predicate IsTop(items: seq<PQItem>, t: PQItem) {
    t in items && forall i :: 0 <= i < |items| ==> !Less(t, items[i])
  }

  /** Served first means: the smallest `f`, and among those the largest `g`. */
  lemma TopMeaning(items: seq<PQItem>, t: PQItem)
    requires t in items
    ensures IsTop(items, t) <==>
      forall i :: 0 <= i < |items| ==> t.f < items[i].f || (t.f == items[i].f && t.g >= items[i].g)
  {
  }

  /**
    Position of an item the heap may serve next (the first preferred one; the
    heap's choice among items tied on `(f, g)` is unspecified).
   */
  function TopIndex(items: seq<PQItem>): (i: nat)
    requires |items| > 0
    ensures i < |items| && IsTop(items, items[i])
    decreases |items|
  {
    if |items| == 1 then 0
    else
      var n := |items| - 1;
      var i := TopIndex(items[..n]);
      assert forall k :: 0 <= k < n ==> items[..n][k] == items[k];
      if Less(items[i], items[n]) then n else i
  }

  // ----- successors -----

  /** The per-state vectors `solve_exact` keeps beside the key. */
  datatype Aux = Aux(jobNext: seq<nat>, machineAvail: seq<int>, jobLastFinish: seq<int>, remainProc: seq<int>)

  predicate AuxShaped(inst: Instance, aux: Aux) {
    && |aux.jobNext| == |inst.jobs|
    && |aux.machineAvail| == inst.numMachines
    && |aux.jobLastFinish| == |inst.jobs|
    && |aux.remainProc| == |inst.jobs|
  }

  function KeyOf(aux: Aux): string {
    StateKey(aux.jobNext, aux.machineAvail, aux.jobLastFinish)
  }

  /** Processing time of the operations of job `j` from index `k` on (the job's total when `k == 0`). */
  function Remaining(inst: Instance, j: nat, k: nat): int
    requires j < |inst.jobs|
    decreases |inst.jobs[j].operations| - k
  {
    if k >= |inst.jobs[j].operations| then 0
    else inst.jobs[j].operations[k].processingTime + Remaining(inst, j, k + 1)
  }

  /** The root state: nothing scheduled, every machine free at 0, every job's full work remaining. */
  function InitialAux(inst: Instance): (aux: Aux)
    ensures AuxShaped(inst, aux)
  {
    Aux(seq(|inst.jobs|, _ => 0), seq(inst.numMachines, _ => 0), seq(|inst.jobs|, _ => 0),
        seq(|inst.jobs|, j requires 0 <= j < |inst.jobs| => Remaining(inst, j, 0)))
  }

  /** A successor: its state, the operation scheduled, its start, the new `g`, `f` and key. */
  datatype Successor = Successor(aux: Aux, op: OpRef, start: int, g: int, f: int, key: string)

  /**
    What scheduling job `j`'s next operation from `aux` does to the state:
    the operation starts when its machine is free and the job has arrived
    from its previous machine; only the job's counter, the machine's
    availability, the job's last finish and the job's remaining work change.
   */
  predicate SchedulesNext(inst: Instance, aux: Aux, j: nat, s: Successor)
    requires ValidInstance(inst) && AuxShaped(inst, aux) && j < |inst.jobs|
  {
    var k := aux.jobNext[j];
    && k < |inst.jobs[j].operations|
    && s.op == OpRef(j, k)
    && var m := MachineOf(inst, s.op);
    && var finish := FinishOf(inst, s.op, s.start);
    && AuxShaped(inst, s.aux)
    && s.start >= aux.machineAvail[m]
    && s.start >= aux.jobLastFinish[j] + TransportTime(inst, s.op)
    && (s.start == aux.machineAvail[m] || s.start == aux.jobLastFinish[j] + TransportTime(inst, s.op))
    && s.aux.jobNext[j] == k + 1
    && s.aux.machineAvail[m] == finish
    && s.aux.jobLastFinish[j] == finish
    && s.aux.remainProc[j] == aux.remainProc[j] - ProcessingTime(inst, s.op)
    && (forall i :: 0 <= i < |inst.jobs| && i != j ==> s.aux.jobNext[i] == aux.jobNext[i])
    && (forall i :: 0 <= i < |inst.jobs| && i != j ==> s.aux.jobLastFinish[i] == aux.jobLastFinish[i])
    && (forall i :: 0 <= i < |inst.jobs| && i != j ==> s.aux.remainProc[i] == aux.remainProc[i])
    && (forall i :: 0 <= i < inst.numMachines && i != m ==> s.aux.machineAvail[i] == aux.machineAvail[i])
  }

  /**
    The successor's costs: `g` grows to the new finish if that is later, `f`
    is the larger of `g` and the heuristic of the new state, and the key is
    the new state's key.
   */
  predicate CostsOf(inst: Instance, g: int, s: Successor)
    requires ValidRef(inst, s.op) && |s.aux.remainProc| <= |s.aux.jobLastFinish|
  {
    var finish := FinishOf(inst, s.op, s.start);
    && s.g >= g && s.g >= finish && (s.g == g || s.g == finish)
    && s.f >= s.g
    && s.f == Max(s.g, LowerBound(s.aux.machineAvail, s.aux.jobLastFinish, s.aux.remainProc))
    && s.key == KeyOf(s.aux)
  }

  /** `s` is the successor of `aux` (reached with makespan `g`) by job `j`. */
  predicate IsSuccessor(inst: Instance, aux: Aux, g: int, j: nat, s: Successor)
    requires ValidInstance(inst) && AuxShaped(inst, aux) && j < |inst.jobs|
  {
    SchedulesNext(inst, aux, j, s) && CostsOf(inst, g, s)
  }

  /**
    The successor's vectors: job `j`'s counter incremented, machine `m`'s
    availability and job `j`'s last finish set to `finish`, job `j`'s
    remaining work reduced by `proc`; nothing else changes.
   */
  function Advance(aux: Aux, j: nat, m: nat, finish: int, proc: int): (next: Aux)
    requires j < |aux.jobNext| && j < |aux.jobLastFinish| && j < |aux.remainProc| && m < |aux.machineAvail|
    ensures |next.jobNext| == |aux.jobNext| && |next.machineAvail| == |aux.machineAvail|
    ensures |next.jobLastFinish| == |aux.jobLastFinish| && |next.remainProc| == |aux.remainProc|
    ensures next.jobNext[j] == aux.jobNext[j] + 1
    ensures next.machineAvail[m] == finish && next.jobLastFinish[j] == finish
    ensures next.remainProc[j] == aux.remainProc[j] - proc
    ensures forall i :: 0 <= i < |aux.jobNext| && i != j ==> next.jobNext[i] == aux.jobNext[i]
    ensures forall i :: 0 <= i < |aux.jobLastFinish| && i != j ==> next.jobLastFinish[i] == aux.jobLastFinish[i]
    ensures forall i :: 0 <= i < |aux.remainProc| && i != j ==> next.remainProc[i] == aux.remainProc[i]
    ensures forall i :: 0 <= i < |aux.machineAvail| && i != m ==> next.machineAvail[i] == aux.machineAvail[i]
  {
    Aux(aux.jobNext[j := aux.jobNext[j] + 1], aux.machineAvail[m := finish], aux.jobLastFinish[j := finish],
        aux.remainProc[j := aux.remainProc[j] - proc])
  }

  /** One iteration of the successor loop of `solve_exact`: `None` when job `j` is finished. */
  function ScheduleJob(inst: Instance, aux: Aux, g: int, j: nat): (r: Option<Successor>)
    requires ValidInstance(inst) && AuxShaped(inst, aux) && j < |inst.jobs|
    ensures r.None? <==> aux.jobNext[j] >= |inst.jobs[j].operations|
    ensures r.Some? ==> IsSuccessor(inst, aux, g, j, r.value)
  {
    if aux.jobNext[j] >= |inst.jobs[j].operations| then None
    else Some(Dispatch(inst, aux, g, j))
  }

  /**
    Job `j`'s next operation dispatched from `aux`: it starts when both its
    machine and the job (after transport) are ready, and the new `g`, `f`
    and key follow from the new vectors.
   */
  function Dispatch(inst: Instance, aux: Aux, g: int, j: nat): (s: Successor)
    requires ValidInstance(inst) && AuxShaped(inst, aux) && j < |inst.jobs|
    requires aux.jobNext[j] < |inst.jobs[j].operations|
    ensures IsSuccessor(inst, aux, g, j, s)
  {
    var r := OpRef(j, aux.jobNext[j]);
    var m := MachineOf(inst, r);
    var start := Max(aux.machineAvail[m], aux.jobLastFinish[j] + TransportTime(inst, r));
    var finish := start + ProcessingTime(inst, r);
    var newG := Max(g, finish);
    var next := Advance(aux, j, m, finish, ProcessingTime(inst, r));
    var h := LowerBound(next.machineAvail, next.jobLastFinish, next.remainProc);
    Successor(next, r, start, newG, Max(newG, h), KeyOf(next))
  }

  // ----- agreement with the decoder -----

  /**
    `aux` is the state the search reaches by dispatching `s` at `starts`:
    each job's count of dispatched operations, the availability of each
    machine and job after `s` as the decoder defines it, and each job's work
    not yet dispatched.
   */
  predicate IsStateOf(inst: Instance, s: seq<OpRef>, starts: seq<int>, aux: Aux)
    requires ValidSequence(inst, s) && |starts| == |s|
  {
    && AuxShaped(inst, aux)
    && (forall j :: 0 <= j < |inst.jobs| ==> aux.jobNext[j] == CountJob(s, j))
    && (forall j :: 0 <= j < |inst.jobs| ==> aux.jobLastFinish[j] == JobReady(inst, s, starts, j))
    && (forall j :: 0 <= j < |inst.jobs| ==> aux.remainProc[j] == Remaining(inst, j, CountJob(s, j)))
    && (forall m :: 0 <= m < inst.numMachines ==> aux.machineAvail[m] == MachineReady(inst, s, starts, m))
  }

  /** The root state is the state of the empty dispatch order. */
  lemma InitialIsEmptyOrder(inst: Instance)
    ensures IsStateOf(inst, [], [], InitialAux(inst))
  {
  }

  /** A state is determined by the dispatch order and start times it describes. */
  lemma StateOfUnique(inst: Instance, s: seq<OpRef>, starts: seq<int>, a: Aux, b: Aux)
    requires ValidSequence(inst, s) && |starts| == |s|
    requires IsStateOf(inst, s, starts, a) && IsStateOf(inst, s, starts, b)
    ensures a == b
  {
    assert a.jobNext == b.jobNext;
    assert a.machineAvail == b.machineAvail;
    assert a.jobLastFinish == b.jobLastFinish;
    assert a.remainProc == b.remainProc;
  }

  /** From the state of `s`, job `j`'s next operation starts at its decoder start after `s`. */
  lemma StartFollowsDecoder(inst: Instance, s: seq<OpRef>, starts: seq<int>, aux: Aux, j: nat, next: Successor)
    requires ValidInstance(inst) && ValidSequence(inst, s) && |starts| == |s|
    requires IsStateOf(inst, s, starts, aux) && j < |inst.jobs|
    requires SchedulesNext(inst, aux, j, next)
    ensures next.op == OpRef(j, CountJob(s, j))
    ensures next.start == EarliestStart(inst, s, starts, next.op)
  {
    var m := MachineOf(inst, next.op);
    assert aux.machineAvail[m] == MachineReady(inst, s, starts, m);
  }

  /** Job counters after dispatching `r`. */
  lemma JobNextStep(inst: Instance, s: seq<OpRef>, r: OpRef, before: seq<nat>, after: seq<nat>)
    requires |before| == |after| == |inst.jobs| && r.job < |inst.jobs|
    requires forall i :: 0 <= i < |inst.jobs| ==> before[i] == CountJob(s, i)
    requires after[r.job] == before[r.job] + 1
    requires forall i :: 0 <= i < |inst.jobs| && i != r.job ==> after[i] == before[i]
    ensures forall i :: 0 <= i < |inst.jobs| ==> after[i] == CountJob(s + [r], i)
  {
    CountAppend(s, r);
  }

  /** Remaining work after dispatching `r`, job `r.job`'s next operation. */
  lemma RemainStep(inst: Instance, s: seq<OpRef>, r: OpRef, before: seq<int>, after: seq<int>)
    requires |before| == |after| == |inst.jobs| && ValidRef(inst, r) && r.op == CountJob(s, r.job)
    requires forall i :: 0 <= i < |inst.jobs| ==> before[i] == Remaining(inst, i, CountJob(s, i))
    requires after[r.job] == before[r.job] - ProcessingTime(inst, r)
    requires forall i :: 0 <= i < |inst.jobs| && i != r.job ==> after[i] == before[i]
    ensures forall i :: 0 <= i < |inst.jobs| ==> after[i] == Remaining(inst, i, CountJob(s + [r], i))
  {
    CountAppend(s, r);
  }

  /** Job availability after dispatching `r` at `t`. */
  lemma JobReadyStep(inst: Instance, s: seq<OpRef>, starts: seq<int>, r: OpRef, t: int, before: seq<int>, after: seq<int>)
    requires ValidSequence(inst, s) && ValidRef(inst, r) && |starts| == |s|
    requires |before| == |after| == |inst.jobs|
    requires forall i :: 0 <= i < |inst.jobs| ==> before[i] == JobReady(inst, s, starts, i)
    requires after[r.job] == FinishOf(inst, r, t)
    requires forall i :: 0 <= i < |inst.jobs| && i != r.job ==> after[i] == before[i]
    ensures ValidSequence(inst, s + [r])
    ensures forall i :: 0 <= i < |inst.jobs| ==> after[i] == JobReady(inst, s + [r], starts + [t], i)
  {
    ReadyAppend(inst, s, starts, r, t);
  }

  /** Machine availability after dispatching `r` at `t`. */
  lemma MachineReadyStep(inst: Instance, s: seq<OpRef>, starts: seq<int>, r: OpRef, t: int, before: seq<int>, after: seq<int>)
    requires ValidSequence(inst, s) && ValidRef(inst, r) && |starts| == |s|
    requires |before| == |after| == inst.numMachines && MachineOf(inst, r) < inst.numMachines
    requires forall m :: 0 <= m < inst.numMachines ==> before[m] == MachineReady(inst, s, starts, m)
    requires after[MachineOf(inst, r)] == FinishOf(inst, r, t)
    requires forall m :: 0 <= m < inst.numMachines && m != MachineOf(inst, r) ==> after[m] == before[m]
    ensures ValidSequence(inst, s + [r])
    ensures forall m :: 0 <= m < inst.numMachines ==> after[m] == MachineReady(inst, s + [r], starts + [t], m)
  {
    ReadyAppend(inst, s, starts, r, t);
  }

  /** The successor's vectors describe the extended dispatch order. */
  lemma StateFollowsDecoder(inst: Instance, s: seq<OpRef>, starts: seq<int>, aux: Aux, j: nat, next: Successor)
    requires ValidInstance(inst) && ValidSequence(inst, s) && |starts| == |s|
    requires IsStateOf(inst, s, starts, aux) && j < |inst.jobs|
    requires SchedulesNext(inst, aux, j, next)
    ensures ValidSequence(inst, s + [next.op])
    ensures IsStateOf(inst, s + [next.op], starts + [next.start], next.aux)
  {
    StartFollowsDecoder(inst, s, starts, aux, j, next);
    var r, t := next.op, next.start;
    JobReadyStep(inst, s, starts, r, t, aux.jobLastFinish, next.aux.jobLastFinish);
    JobNextStep(inst, s, r, aux.jobNext, next.aux.jobNext);
    RemainStep(inst, s, r, aux.remainProc, next.aux.remainProc);
    MachineReadyStep(inst, s, starts, r, t, aux.machineAvail, next.aux.machineAvail);
  }

  /**
    Scheduling job `j` from the state of a dispatch order `s`, reached with
    `s`'s makespan `g`, schedules `j`'s next operation at the start the
    decoder gives it after `s`, reaches the state of the extended order, and
    has the extended order's makespan as its `g`.
   */
  lemma ScheduleFollowsDecoder(inst: Instance, s: seq<OpRef>, starts: seq<int>, aux: Aux, g: int, j: nat)
    requires ValidInstance(inst) && ValidSequence(inst, s)
    requires IsDecoded(inst, s, starts) && IsMakespan(inst, s, starts, g)
    requires IsStateOf(inst, s, starts, aux)
    requires j < |inst.jobs| && CountJob(s, j) < |inst.jobs[j].operations|
    ensures ScheduleJob(inst, aux, g, j).Some?
    ensures var next := ScheduleJob(inst, aux, g, j).value;
      && next.op == OpRef(j, CountJob(s, j))
      && ValidSequence(inst, s + [next.op])
      && IsDecoded(inst, s + [next.op], starts + [next.start])
      && IsMakespan(inst, s + [next.op], starts + [next.start], next.g)
      && IsStateOf(inst, s + [next.op], starts + [next.start], next.aux)
  {
    var next := ScheduleJob(inst, aux, g, j).value;
    SuccessorFollowsDecoder(inst, s, starts, aux, g, j, next);
  }

  /**
    ScheduleFollowsDecoder for any successor that schedules job `j`'s next
    operation and takes the larger of `g` and its finish as the new `g`.
   */
  lemma SuccessorFollowsDecoder(inst: Instance, s: seq<OpRef>, starts: seq<int>, aux: Aux, g: int, j: nat, next: Successor)
    requires ValidInstance(inst) && ValidSequence(inst, s)
    requires IsDecoded(inst, s, starts) && IsMakespan(inst, s, starts, g)
    requires IsStateOf(inst, s, starts, aux) && j < |inst.jobs|
    requires SchedulesNext(inst, aux, j, next)
    requires next.g == Max(g, FinishOf(inst, next.op, next.start))
    ensures next.op == OpRef(j, CountJob(s, j))
    ensures ValidSequence(inst, s + [next.op])
    ensures IsDecoded(inst, s + [next.op], starts + [next.start])
    ensures IsMakespan(inst, s + [next.op], starts + [next.start], next.g)
    ensures IsStateOf(inst, s + [next.op], starts + [next.start], next.aux)
  {
    StartFollowsDecoder(inst, s, starts, aux, j, next);
    StateFollowsDecoder(inst, s, starts, aux, j, next);
    var r, t := next.op, next.start;
    DecodedAppend(inst, s, starts, r, t);
    MakespanAppend(inst, s, starts, r, t);
    MakespanUnique(inst, s, starts, g, MaxFinish(inst, s, starts));
  }

  // ----- the largest machine availability is the makespan -----

  /** The characterisation of MaxFromZero fixes its value. */
  lemma MaxFromZeroUnique(xs: seq<int>, h: int)
    requires h >= 0 && (forall i :: 0 <= i < |xs| ==> xs[i] <= h)
    requires h == 0 || exists i :: 0 <= i < |xs| && xs[i] == h
    ensures h == MaxFromZero(xs)
  {
  }

  /** Raising one entry raises the largest entry to at least that value. */
  lemma MaxFromZeroRaise(xs: seq<int>, m: nat, v: int)
    requires m < |xs| && v >= xs[m]
    ensures MaxFromZero(xs[m := v]) == Max(MaxFromZero(xs), v)
  {
    var ys := xs[m := v];
    var h := Max(MaxFromZero(xs), v);
    assert forall i :: 0 <= i < |ys| ==> ys[i] <= h;
    if h != 0 {
      if h == v {
        assert ys[m] == h;
      } else {
        var i :| 0 <= i < |xs| && xs[i] == h;
        if i != m {
          assert ys[i] == h;
        }
      }
    }
    MaxFromZeroUnique(ys, h);
  }

  /**
    With non-negative processing times a machine only becomes free later, so
    the `g` of a successor is the largest machine availability of its state
    whenever that was so for its parent.
   */
  lemma SuccessorHorizon(inst: Instance, aux: Aux, g: int, j: nat, next: Successor)
    requires ValidInstance(inst) && NonNegativeTimes(inst)
    requires AuxShaped(inst, aux) && j < |inst.jobs|
    requires SchedulesNext(inst, aux, j, next)
    requires next.g == Max(g, FinishOf(inst, next.op, next.start))
    requires g == MaxFromZero(aux.machineAvail)
    ensures next.g == MaxFromZero(next.aux.machineAvail)
  {
    var m := MachineOf(inst, next.op);
    var finish := FinishOf(inst, next.op, next.start);
    assert ProcessingTime(inst, next.op) >= 0;
    assert next.aux.machineAvail == aux.machineAvail[m := finish];
    MaxFromZeroRaise(aux.machineAvail, m, finish);
  }

  // ----- visited, pruning and the queue -----

  /** `size_t(-1)`: the job and operation of the root's placeholder action. */
  const SizeMax: nat := 0xFFFF_FFFF_FFFF_FFFF

  /** What `visited` records per key: `g`, the parent's key, the action taken and its start. */
  datatype NodeInfo = NodeInfo(g: int, parentKey: string, scheduledOp: OpRef, startTime: int)

  /** The root's record: `g` 0 and an empty parent key. */
  const RootInfo := NodeInfo(0, "", OpRef(SizeMax, SizeMax), 0)

  /** The search's maps and its queue (a sequence; the heap order is imposed by TopIndex). */
  datatype Search = Search(visited: map<string, NodeInfo>, auxMap: map<string, Aux>, queue: seq<PQItem>)

  /** A popped item is skipped when its state was since recorded with a smaller `g`. */
  predicate Skips(visited: map<string, NodeInfo>, item: PQItem) {
    item.key in visited && visited[item.key].g < item.g
  }

  /** A successor is dropped when its state is already recorded with a `g` no larger than its own. */
  predicate Prunes(visited: map<string, NodeInfo>, key: string, newG: int) {
    key in visited && visited[key].g <= newG
  }

  /** Every job's counter has reached its number of operations. */
  predicate IsGoal(inst: Instance, aux: Aux)
    requires |aux.jobNext| == |inst.jobs|
  {
    forall j :: 0 <= j < |inst.jobs| ==> aux.jobNext[j] >= |inst.jobs[j].operations|
  }

  /** Every queued key has its vectors recorded, so `aux_map.at` finds them. */
  predicate QueueKnown(inst: Instance, st: Search) {
    forall i :: 0 <= i < |st.queue| ==> st.queue[i].key in st.auxMap && AuxShaped(inst, st.auxMap[st.queue[i].key])
  }

  /**
    What expanding a state may do to the search: the queue only grows, a
    recorded `g` never increases, keys are never forgotten, every new or
    changed record has `parent` as its parent key, and every new or changed
    vector set has the instance's shape.
   */
  predicate Grows(inst: Instance, a: Search, b: Search, parent: string) {
    && a.queue <= b.queue
    && (forall k :: k in a.visited ==> k in b.visited && b.visited[k].g <= a.visited[k].g)
    && (forall k :: k in b.visited && (k !in a.visited || b.visited[k] != a.visited[k]) ==> b.visited[k].parentKey == parent)
    && (forall k :: k in a.auxMap ==> k in b.auxMap)
    && (forall k :: k in b.auxMap && (k !in a.auxMap || b.auxMap[k] != a.auxMap[k]) ==> AuxShaped(inst, b.auxMap[k]))
  }

  /**
    The items queued from position `n` on were pushed while expanding
    `current`: `f >= g >= current.g`, and their states are recorded with a
    `g` no larger than theirs and with shaped vectors.
   */
  predicate PushedSince(inst: Instance, b: Search, n: nat, current: PQItem) {
    forall i :: n <= i < |b.queue| ==>
      && b.queue[i].f >= b.queue[i].g >= current.g
      && b.queue[i].key in b.visited && b.visited[b.queue[i].key].g <= b.queue[i].g
      && b.queue[i].key in b.auxMap && AuxShaped(inst, b.auxMap[b.queue[i].key])
  }

  lemma GrowsTransitive(inst: Instance, a: Search, b: Search, c: Search, current: PQItem)
    requires Grows(inst, a, b, current.key) && Grows(inst, b, c, current.key)
    requires PushedSince(inst, b, |a.queue|, current) && PushedSince(inst, c, |b.queue|, current)
    ensures Grows(inst, a, c, current.key) && PushedSince(inst, c, |a.queue|, current)
  {
    forall i | |a.queue| <= i < |b.queue|
      ensures c.queue[i] == b.queue[i]
    {
    }
  }

  /** Expansion keeps every queued key known. */
  lemma GrowsKeepsQueueKnown(inst: Instance, a: Search, b: Search, current: PQItem)
    requires QueueKnown(inst, a) && Grows(inst, a, b, current.key) && PushedSince(inst, b, |a.queue|, current)
    ensures QueueKnown(inst, b)
  {
    forall i | 0 <= i < |b.queue|
      ensures b.queue[i].key in b.auxMap && AuxShaped(inst, b.auxMap[b.queue[i].key])
    {
      if i < |a.queue| {
        assert b.queue[i] == a.queue[i];
      }
    }
  }

  /**
    One iteration of the successor loop for job `j`: the successor, unless
    job `j` is finished or the successor is pruned, is recorded with the
    current key as its parent and pushed.
   */
  function ExpandJob(inst: Instance, st: Search, current: PQItem, aux: Aux, j: nat): (r: Search)
    requires ValidInstance(inst) && AuxShaped(inst, aux) && j < |inst.jobs|
    ensures |st.queue| <= |r.queue| <= |st.queue| + 1
  {
    match ScheduleJob(inst, aux, current.g, j)
    case None => st
    case Some(next) =>
      if Prunes(st.visited, next.key, next.g) then st
      else
        Search(st.visited[next.key := NodeInfo(next.g, current.key, next.op, next.start)],
               st.auxMap[next.key := next.aux],
               st.queue + [PQItem(next.f, next.g, next.key)])
  }

  /** The successor loop over jobs `j..` of `solve_exact`, in job order. */
  function ExpandFrom(inst: Instance, st: Search, current: PQItem, aux: Aux, j: nat): (r: Search)
    requires ValidInstance(inst) && AuxShaped(inst, aux) && j <= |inst.jobs|
    ensures |st.queue| <= |r.queue| <= |st.queue| + (|inst.jobs| - j)
    decreases |inst.jobs| - j
  {
    if j == |inst.jobs| then st
    else ExpandFrom(inst, ExpandJob(inst, st, current, aux, j), current, aux, j + 1)
  }

  /** What one iteration of the successor loop may do to the search. */
  lemma ExpandJobGrows(inst: Instance, st: Search, current: PQItem, aux: Aux, j: nat, r: Search)
    requires ValidInstance(inst) && AuxShaped(inst, aux) && j < |inst.jobs|
    requires r == ExpandJob(inst, st, current, aux, j)
    ensures Grows(inst, st, r, current.key) && PushedSince(inst, r, |st.queue|, current)
  {
    var sched := ScheduleJob(inst, aux, current.g, j);
    if sched.Some? && !Prunes(st.visited, sched.value.key, sched.value.g) {
      var next := sched.value;
      var info := NodeInfo(next.g, current.key, next.op, next.start);
      assert r == Search(st.visited[next.key := info], st.auxMap[next.key := next.aux], st.queue + [PQItem(next.f, next.g, next.key)]);
      RecordGrows(inst, st, current, next, info);
    } else {
      assert r == st;
    }
  }

  /** Recording and pushing one successor is a growth of the search. */
  lemma RecordGrows(inst: Instance, st: Search, current: PQItem, next: Successor, info: NodeInfo)
    requires info == NodeInfo(next.g, current.key, next.op, next.start) && !Prunes(st.visited, next.key, next.g)
    requires next.f >= next.g >= current.g && AuxShaped(inst, next.aux)
    ensures var r := Search(st.visited[next.key := info], st.auxMap[next.key := next.aux], st.queue + [PQItem(next.f, next.g, next.key)]);
      Grows(inst, st, r, current.key) && PushedSince(inst, r, |st.queue|, current)
  {
  }

  /** What the successor loop may do to the search. */
  lemma {:induction false} ExpandFromGrows(inst: Instance, st: Search, current: PQItem, aux: Aux, j: nat, r: Search)
    requires ValidInstance(inst) && AuxShaped(inst, aux) && j <= |inst.jobs|
    requires r == ExpandFrom(inst, st, current, aux, j)
    ensures Grows(inst, st, r, current.key) && PushedSince(inst, r, |st.queue|, current)
    decreases |inst.jobs| - j
  {
    if j < |inst.jobs| {
      var mid := ExpandJob(inst, st, current, aux, j);
      ExpandJobGrows(inst, st, current, aux, j, mid);
      ExpandFromGrows(inst, mid, current, aux, j + 1, r);
      GrowsTransitive(inst, st, mid, r, current);
    }
  }

  // ----- reconstruction -----

  /** A dispatch order with its start times. */
  datatype Path = Path(ops: seq<OpRef>, starts: seq<int>)

  /**
    The reconstruction loop: follow parent keys from `key` until the key is
    unknown or its parent key is empty, collecting each action and its start;
    the collected lists are reversed, so the result is in root-to-`key` order.
    `fuel` bounds the number of links followed.
   */
  function Reconstruct(visited: map<string, NodeInfo>, key: string, fuel: nat): (p: Path)
    ensures |p.ops| == |p.starts| <= fuel
    ensures fuel > 0 && key in visited && visited[key].parentKey != "" ==>
      && |p.ops| > 0
      && p.ops[|p.ops| - 1] == visited[key].scheduledOp
      && p.starts[|p.starts| - 1] == visited[key].startTime
    decreases fuel
  {
    if fuel == 0 || key !in visited || visited[key].parentKey == "" then Path([], [])
    else
      var info := visited[key];
      var earlier := Reconstruct(visited, info.parentKey, fuel - 1);
      Path(earlier.ops + [info.scheduledOp], earlier.starts + [info.startTime])
  }

  // ----- one iteration of the search -----

  /** The result of an iteration: a returned solution, or the search to continue. */
  datatype Outcome = Solved(solution: Solution) | Running(search: Search)

  /**
    The set-up of `solve_exact`: an instance without operations returns the
    default solution; otherwise the root is recorded and queued.
   */
  function InitialSearch(inst: Instance): (r: Outcome)
    ensures r.Solved? <==> TotalOps(inst) == 0
    ensures r.Solved? ==> r.solution == EmptySolution
    ensures r.Running? ==> |r.search.queue| == 1 && r.search.queue[0].g == 0 && r.search.queue[0].f >= 0
  {
    if TotalOps(inst) == 0 then Solved(EmptySolution)
    else
      var aux := InitialAux(inst);
      var key := KeyOf(aux);
      var h := LowerBound(aux.machineAvail, aux.jobLastFinish, aux.remainProc);
      Running(Search(map[key := RootInfo], map[key := aux], [PQItem(Max(0, h), 0, key)]))
  }

  /**
    One iteration of the main loop: an empty queue ends the search with the
    default solution; otherwise the top item is popped and skipped, turned
    into the solution when it is a goal, or expanded.
   */
  function Step(inst: Instance, st: Search): (r: Outcome)
    requires ValidInstance(inst) && QueueKnown(inst, st)
    ensures r.Running? ==> QueueKnown(inst, r.search) && |r.search.queue| >= |st.queue| - 1
    ensures r.Solved? && |st.queue| > 0 ==> r.solution.makespan == st.queue[TopIndex(st.queue)].g
    ensures |st.queue| == 0 ==> r == Solved(EmptySolution)
  {
    if |st.queue| == 0 then Solved(EmptySolution)
    else
      var i := TopIndex(st.queue);
      var current := st.queue[i];
      var rest := st.queue[..i] + st.queue[i + 1..];
      assert forall k :: 0 <= k < |rest| ==> rest[k] in st.queue;
      if Skips(st.visited, current) then Running(Search(st.visited, st.auxMap, rest))
      else
        var aux := st.auxMap[current.key];
        if IsGoal(inst, aux) then
          var path := Reconstruct(st.visited, current.key, Sum(aux.jobNext));
          Solved(Solution(path.ops, path.starts, current.g))
        else
          var popped := Search(st.visited, st.auxMap, rest);
          var r := ExpandFrom(inst, popped, current, aux, 0);
          ExpandFromGrows(inst, popped, current, aux, 0, r);
          GrowsKeepsQueueKnown(inst, popped, r, current);
          Running(r)
  }

  // ----- what the records describe -----

  /** Shaped vectors whose counters do not pass their job's length. */
  predicate StateOk(inst: Instance, aux: Aux) {
    && AuxShaped(inst, aux)
    && forall j :: 0 <= j < |inst.jobs| ==> aux.jobNext[j] <= |inst.jobs[j].operations|
  }

  /**
    The record of `k` is the root's (the initial vectors and `g` 0), or it
    links to a recorded parent whose vectors lead to `k`'s by scheduling the
    recorded action at the recorded start, with `g` the larger of the
    parent's `g` and the action's finish, one more operation dispatched.
   */
  predicate LinkOk(inst: Instance, visited: map<string, NodeInfo>, auxMap: map<string, Aux>, k: string)
    requires ValidInstance(inst) && k in visited && k in auxMap
  {
    var info := visited[k];
    if info.parentKey == "" then auxMap[k] == InitialAux(inst) && info.g == 0
    else
      var p := info.parentKey;
      && p in visited && p in auxMap && AuxShaped(inst, auxMap[p])
      && info.scheduledOp.job < |inst.jobs|
      && SchedulesNext(inst, auxMap[p], info.scheduledOp.job, Successor(auxMap[k], info.scheduledOp, info.startTime, info.g, info.g, k))
      && info.g == Max(visited[p].g, FinishOf(inst, info.scheduledOp, info.startTime))
      && Sum(auxMap[k].jobNext) == Sum(auxMap[p].jobNext) + 1
  }

  /**
    Everything the search keeps about a recorded key: its vectors, whose key
    it is, its `g` equal to the latest machine availability, and its link.
   */
  predicate NodeOk(inst: Instance, visited: map<string, NodeInfo>, auxMap: map<string, Aux>, k: string)
    requires ValidInstance(inst) && k in visited
  {
    && k in auxMap
    && StateOk(inst, auxMap[k])
    && KeyOf(auxMap[k]) == k
    && visited[k].g == MaxFromZero(auxMap[k].machineAvail)
    && LinkOk(inst, visited, auxMap, k)
  }

  /** The invariant of the search: every record is consistent, and every queued item is its state's record. */
  predicate Consistent(inst: Instance, st: Search)
    requires ValidInstance(inst)
  {
    NodesOk(inst, st.visited, st.auxMap) && QueueRecorded(st)
  }

  /** Every record is consistent. */
  predicate NodesOk(inst: Instance, visited: map<string, NodeInfo>, auxMap: map<string, Aux>)
    requires ValidInstance(inst)
  {
    forall k {:trigger NodeOk(inst, visited, auxMap, k)} :: k in visited ==> NodeOk(inst, visited, auxMap, k)
  }

  /** The record of a recorded key of a consistent search is consistent. */
  lemma RecordedNodeOk(inst: Instance, visited: map<string, NodeInfo>, auxMap: map<string, Aux>, k: string)
    requires ValidInstance(inst) && NodesOk(inst, visited, auxMap) && k in visited
    ensures NodeOk(inst, visited, auxMap, k)
  {
  }

  /** Every queued item carries its state's recorded `g`. */
  predicate QueueRecorded(st: Search) {
    forall i :: 0 <= i < |st.queue| ==> st.queue[i].key in st.visited && st.visited[st.queue[i].key].g == st.queue[i].g
  }

  /** The invariant gives every queued key its vectors. */
  lemma ConsistentQueueKnown(inst: Instance, st: Search)
    requires ValidInstance(inst) && Consistent(inst, st)
    ensures QueueKnown(inst, st)
  {
    forall i | 0 <= i < |st.queue|
      ensures st.queue[i].key in st.auxMap && AuxShaped(inst, st.auxMap[st.queue[i].key])
    {
      RecordedNodeOk(inst, st.visited, st.auxMap, st.queue[i].key);
    }
  }

  /** Under the invariant no popped item is ever skipped: no state is reached twice with different `g`. */
  lemma NothingSkipped(inst: Instance, st: Search, i: nat)
    requires ValidInstance(inst) && Consistent(inst, st) && i < |st.queue|
    ensures !Skips(st.visited, st.queue[i])
  {
  }

  /** The root's record is consistent. */
  lemma RootNodeOk(inst: Instance, aux: Aux, key: string)
    requires ValidInstance(inst) && aux == InitialAux(inst) && key == KeyOf(aux)
    ensures NodeOk(inst, map[key := RootInfo], map[key := aux], key)
  {
    assert forall m :: 0 <= m < |aux.machineAvail| ==> aux.machineAvail[m] == 0;
    MaxFromZeroUnique(aux.machineAvail, 0);
    assert StateOk(inst, aux);
  }

  /** The search set up for an instance with operations satisfies the invariant. */
  lemma InitialConsistent(inst: Instance)
    requires ValidInstance(inst)
    ensures InitialSearch(inst).Running? ==> Consistent(inst, InitialSearch(inst).search)
  {
    if TotalOps(inst) != 0 {
      var aux := InitialAux(inst);
      var key := KeyOf(aux);
      RootNodeOk(inst, aux, key);
      var st := InitialSearch(inst).search;
      assert st.visited == map[key := RootInfo] && st.auxMap == map[key := aux];
    }
  }

  /**
    A record of a key already recorded is unchanged, and so is every record
    that links to it, when the maps only gain keys.
   */
  lemma NodeOkExtend(inst: Instance, visited: map<string, NodeInfo>, auxMap: map<string, Aux>, k: string,
                     key: string, info: NodeInfo, aux: Aux)
    requires ValidInstance(inst) && k in visited && key !in visited
    requires NodeOk(inst, visited, auxMap, k)
    ensures NodeOk(inst, visited[key := info], auxMap[key := aux], k)
  {
    var v, a := visited[key := info], auxMap[key := aux];
    assert v[k] == visited[k] && a[k] == auxMap[k];
    var p := visited[k].parentKey;
    if p != "" {
      assert v[p] == visited[p] && a[p] == auxMap[p];
    }
  }

  /** With non-negative processing times, a successor's key is recorded only if its `g` is not smaller. */
  lemma KnownKeyPruned(inst: Instance, st: Search, g: int, next: Successor)
    requires ValidInstance(inst) && Consistent(inst, st)
    requires next.key == KeyOf(next.aux) && next.g == MaxFromZero(next.aux.machineAvail)
    requires next.key in st.visited
    ensures Prunes(st.visited, next.key, next.g)
  {
    RecordedNodeOk(inst, st.visited, st.auxMap, next.key);
    var known := st.auxMap[next.key];
    StateKeyInjective(known.jobNext, known.machineAvail, known.jobLastFinish,
                      next.aux.jobNext, next.aux.machineAvail, next.aux.jobLastFinish);
  }

  /** The new record of a successor is consistent. */
  lemma NewNodeOk(inst: Instance, visited: map<string, NodeInfo>, auxMap: map<string, Aux>, current: PQItem, aux: Aux, j: nat, next: Successor)
    requires ValidInstance(inst) && NonNegativeTimes(inst)
    requires current.key in visited && current.key in auxMap && auxMap[current.key] == aux
    requires visited[current.key].g == current.g && j < |inst.jobs|
    requires StateOk(inst, aux) && current.g == MaxFromZero(aux.machineAvail) && current.key == KeyOf(aux)
    requires IsSuccessor(inst, aux, current.g, j, next) && next.key !in visited
    ensures NodeOk(inst, visited[next.key := NodeInfo(next.g, current.key, next.op, next.start)],
                   auxMap[next.key := next.aux], next.key)
  {
    var v := visited[next.key := NodeInfo(next.g, current.key, next.op, next.start)];
    var a := auxMap[next.key := next.aux];
    assert next.g == Max(current.g, FinishOf(inst, next.op, next.start));
    SuccessorHorizon(inst, aux, current.g, j, next);
    NextSum(inst, aux, j, next);
    assert v[current.key] == visited[current.key] && a[current.key] == aux;
    assert SchedulesNext(inst, aux, j, Successor(next.aux, next.op, next.start, next.g, next.g, next.key));
  }

  /** A successor's state is shaped, bounded, and has one more operation dispatched. */
  lemma NextSum(inst: Instance, aux: Aux, j: nat, next: Successor)
    requires ValidInstance(inst) && StateOk(inst, aux) && j < |inst.jobs|
    requires SchedulesNext(inst, aux, j, next)
    ensures StateOk(inst, next.aux)
    ensures Sum(next.aux.jobNext) == Sum(aux.jobNext) + 1
  {
    assert next.aux.jobNext == aux.jobNext[j := aux.jobNext[j] + 1];
    SumIncrement(aux.jobNext, j);
  }

  /** The state being expanded: its record, its vectors and the popped item agree. */
  predicate Expanding(inst: Instance, st: Search, current: PQItem, aux: Aux) {
    && current.key in st.visited && current.key in st.auxMap && st.auxMap[current.key] == aux
    && st.visited[current.key].g == current.g
    && StateOk(inst, aux) && current.g == MaxFromZero(aux.machineAvail) && current.key == KeyOf(aux)
  }

  /** `b` has every record of `a`, unchanged. */
  predicate OnlyAdds(a: Search, b: Search) {
    forall k :: k in a.visited ==> k in b.visited && b.visited[k] == a.visited[k]
  }

  lemma OnlyAddsTransitive(a: Search, b: Search, c: Search)
    requires OnlyAdds(a, b) && OnlyAdds(b, c)
    ensures OnlyAdds(a, c)
  {
  }

  /** Recording a successor whose state is not yet known keeps every record consistent. */
  lemma RecordNodesOk(inst: Instance, visited: map<string, NodeInfo>, auxMap: map<string, Aux>,
                      current: PQItem, aux: Aux, j: nat, next: Successor)
    requires ValidInstance(inst) && NonNegativeTimes(inst) && NodesOk(inst, visited, auxMap)
    requires current.key in visited && current.key in auxMap && auxMap[current.key] == aux
    requires visited[current.key].g == current.g && j < |inst.jobs|
    requires StateOk(inst, aux) && current.g == MaxFromZero(aux.machineAvail) && current.key == KeyOf(aux)
    requires IsSuccessor(inst, aux, current.g, j, next) && next.key !in visited
    ensures NodesOk(inst, visited[next.key := NodeInfo(next.g, current.key, next.op, next.start)], auxMap[next.key := next.aux])
  {
    var info := NodeInfo(next.g, current.key, next.op, next.start);
    var v, a := visited[next.key := info], auxMap[next.key := next.aux];
    forall k | k in v
      ensures NodeOk(inst, v, a, k)
    {
      if k == next.key {
        NewNodeOk(inst, visited, auxMap, current, aux, j, next);
      } else {
        RecordedNodeOk(inst, visited, auxMap, k);
        NodeOkExtend(inst, visited, auxMap, k, next.key, info, next.aux);
      }
    }
  }

  /** Pushing a newly recorded item keeps every queued item's `g` the recorded one. */
  lemma RecordQueueOk(st: Search, key: string, info: NodeInfo, item: PQItem, aux: Aux)
    requires QueueRecorded(st) && key !in st.visited && item.key == key && item.g == info.g
    ensures QueueRecorded(Search(st.visited[key := info], st.auxMap[key := aux], st.queue + [item]))
  {
    var r := Search(st.visited[key := info], st.auxMap[key := aux], st.queue + [item]);
    forall i | 0 <= i < |r.queue|
      ensures r.queue[i].key in r.visited && r.visited[r.queue[i].key].g == r.queue[i].g
    {
      if i < |st.queue| {
        assert r.queue[i] == st.queue[i];
      }
    }
  }

  /** Recording a successor whose state is not yet known keeps the invariant. */
  lemma RecordConsistent(inst: Instance, st: Search, current: PQItem, aux: Aux, j: nat, next: Successor)
    requires ValidInstance(inst) && NonNegativeTimes(inst) && Consistent(inst, st)
    requires Expanding(inst, st, current, aux) && j < |inst.jobs|
    requires IsSuccessor(inst, aux, current.g, j, next) && next.key !in st.visited
    ensures var r := Search(st.visited[next.key := NodeInfo(next.g, current.key, next.op, next.start)],
                            st.auxMap[next.key := next.aux], st.queue + [PQItem(next.f, next.g, next.key)]);
      Consistent(inst, r) && Expanding(inst, r, current, aux) && OnlyAdds(st, r)
  {
    var info := NodeInfo(next.g, current.key, next.op, next.start);
    var r := Search(st.visited[next.key := info], st.auxMap[next.key := next.aux], st.queue + [PQItem(next.f, next.g, next.key)]);
    RecordNodesOk(inst, st.visited, st.auxMap, current, aux, j, next);
    RecordQueueOk(st, next.key, info, PQItem(next.f, next.g, next.key), next.aux);
    assert current.key != next.key;
    assert r.visited[current.key] == st.visited[current.key] && r.auxMap[current.key] == aux;
  }

  /**
    With non-negative processing times, one iteration of the successor loop
    keeps the invariant and only adds records: no recorded state is ever
    reached again with a smaller `g`.
   */
  lemma ExpandJobConsistent(inst: Instance, st: Search, current: PQItem, aux: Aux, j: nat, r: Search)
    requires ValidInstance(inst) && NonNegativeTimes(inst) && StateOk(inst, aux) && j < |inst.jobs|
    requires r == ExpandJob(inst, st, current, aux, j)
    ensures Consistent(inst, st) && Expanding(inst, st, current, aux) ==>
      Consistent(inst, r) && Expanding(inst, r, current, aux) && OnlyAdds(st, r)
  {
    if Consistent(inst, st) && Expanding(inst, st, current, aux) {
      var sched := ScheduleJob(inst, aux, current.g, j);
      if sched.Some? {
        var next := sched.value;
        assert next.g == Max(current.g, FinishOf(inst, next.op, next.start));
        SuccessorHorizon(inst, aux, current.g, j, next);
        if next.key in st.visited {
          KnownKeyPruned(inst, st, current.g, next);
        } else {
          RecordConsistent(inst, st, current, aux, j, next);
        }
      }
    }
  }

  /** ExpandJobConsistent for the whole successor loop. */
  lemma {:induction false} ExpandFromConsistent(inst: Instance, st: Search, current: PQItem, aux: Aux, j: nat)
    requires ValidInstance(inst) && NonNegativeTimes(inst) && StateOk(inst, aux) && j <= |inst.jobs|
    requires Consistent(inst, st) && Expanding(inst, st, current, aux)
    ensures var r := ExpandFrom(inst, st, current, aux, j); Consistent(inst, r) && OnlyAdds(st, r)
    decreases |inst.jobs| - j
  {
    if j < |inst.jobs| {
      var mid := ExpandJob(inst, st, current, aux, j);
      ExpandJobConsistent(inst, st, current, aux, j, mid);
      ExpandFromConsistent(inst, mid, current, aux, j + 1);
      var r := ExpandFrom(inst, mid, current, aux, j + 1);
      OnlyAddsTransitive(st, mid, r);
      assert ExpandFrom(inst, st, current, aux, j) == r;
    } else {
      assert ExpandFrom(inst, st, current, aux, j) == st;
    }
  }

  /**
    `p` is a dispatch order with start times that the decoder produces,
    whose makespan is `g`, and which leads to the vectors `aux`, one entry
    per dispatched operation.
   */
  predicate Describes(inst: Instance, p: Path, g: int, aux: Aux)
    requires ValidInstance(inst)
  {
    && ValidSequence(inst, p.ops) && |p.starts| == |p.ops| && |p.ops| == Sum(aux.jobNext)
    && IsDecoded(inst, p.ops, p.starts)
    && IsMakespan(inst, p.ops, p.starts, g)
    && IsStateOf(inst, p.ops, p.starts, aux)
  }

  /** Describes carries over to the successor, which dispatches one more operation. */
  lemma DescribesStep(inst: Instance, p: Path, g: int, aux: Aux, j: nat, next: Successor)
    requires ValidInstance(inst) && Describes(inst, p, g, aux) && j < |inst.jobs|
    requires SchedulesNext(inst, aux, j, next) && next.g == Max(g, FinishOf(inst, next.op, next.start))
    requires Sum(next.aux.jobNext) == Sum(aux.jobNext) + 1
    ensures Describes(inst, Path(p.ops + [next.op], p.starts + [next.start]), next.g, next.aux)
  {
    SuccessorFollowsDecoder(inst, p.ops, p.starts, aux, g, j, next);
  }

  /**
    Following the parent links from a record of a consistent search gives,
    in root-to-goal order, the dispatch order the record describes.
   */
  lemma {:induction false} ReconstructDecodes(inst: Instance, visited: map<string, NodeInfo>, auxMap: map<string, Aux>,
                                              key: string, fuel: nat)
    requires ValidInstance(inst) && key in visited && key in auxMap
    requires NodesOk(inst, visited, auxMap) && fuel >= Sum(auxMap[key].jobNext)
    ensures Describes(inst, Reconstruct(visited, key, fuel), visited[key].g, auxMap[key])
    decreases fuel, 1
  {
    RecordedNodeOk(inst, visited, auxMap, key);
    if visited[key].parentKey == "" {
      InitialIsEmptyOrder(inst);
      SumZeros(|inst.jobs|);
    } else {
      ReconstructLink(inst, visited, auxMap, key, fuel);
    }
  }

  /** ReconstructDecodes for a record with a parent: the parent's order, then the recorded action. */
  lemma {:induction false} ReconstructLink(inst: Instance, visited: map<string, NodeInfo>, auxMap: map<string, Aux>,
                                           key: string, fuel: nat)
    requires ValidInstance(inst) && key in visited && key in auxMap
    requires NodesOk(inst, visited, auxMap) && fuel >= Sum(auxMap[key].jobNext)
    requires NodeOk(inst, visited, auxMap, key) && visited[key].parentKey != ""
    ensures Describes(inst, Reconstruct(visited, key, fuel), visited[key].g, auxMap[key])
    decreases fuel, 0
  {
    ReconstructDecodes(inst, visited, auxMap, visited[key].parentKey, fuel - 1);
    LinkDescribes(inst, visited, auxMap, key, fuel);
  }

  /** A linked record describes its parent's order followed by the recorded action. */
  lemma LinkDescribes(inst: Instance, visited: map<string, NodeInfo>, auxMap: map<string, Aux>, key: string, fuel: nat)
    requires ValidInstance(inst) && key in visited && NodeOk(inst, visited, auxMap, key)
    requires visited[key].parentKey != "" && fuel > 0
    requires Describes(inst, Reconstruct(visited, visited[key].parentKey, fuel - 1),
                       visited[visited[key].parentKey].g, auxMap[visited[key].parentKey])
    ensures Describes(inst, Reconstruct(visited, key, fuel), visited[key].g, auxMap[key])
  {
    var info := visited[key];
    var parent := info.parentKey;
    var earlier := Reconstruct(visited, parent, fuel - 1);
    var next := Successor(auxMap[key], info.scheduledOp, info.startTime, info.g, info.g, key);
    assert Reconstruct(visited, key, fuel) == Path(earlier.ops + [next.op], earlier.starts + [next.start]);
    DescribesStep(inst, earlier, visited[parent].g, auxMap[parent], info.scheduledOp.job, next);
  }

  /**
    With non-negative processing times an iteration keeps the invariant, and
    a returned solution is either the default one (the queue ran empty) or
    a complete dispatch order whose start times are the decoder's and whose
    makespan is the goal's `g`.
   */
  lemma StepSound(inst: Instance, st: Search)
    requires ValidInstance(inst) && NonNegativeTimes(inst) && Consistent(inst, st)
    ensures QueueKnown(inst, st)
    ensures Step(inst, st).Running? ==> Consistent(inst, Step(inst, st).search)
    ensures Step(inst, st).Solved? ==>
      var sol := Step(inst, st).solution;
      && |sol.startTimes| == |sol.operationSequence|
      && ValidSequence(inst, sol.operationSequence)
      && IsDecoded(inst, sol.operationSequence, sol.startTimes)
      && IsMakespan(inst, sol.operationSequence, sol.startTimes, sol.makespan)
      && (sol == EmptySolution || AllJobsComplete(inst, sol.operationSequence))
  {
    ConsistentQueueKnown(inst, st);
    if |st.queue| > 0 {
      var i := TopIndex(st.queue);
      var current := st.queue[i];
      NothingSkipped(inst, st, i);
      RecordedNodeOk(inst, st.visited, st.auxMap, current.key);
      var aux := st.auxMap[current.key];
      if IsGoal(inst, aux) {
        ReconstructDecodes(inst, st.visited, st.auxMap, current.key, Sum(aux.jobNext));
      } else {
        ExpandTopConsistent(inst, st, i);
      }
    }
  }

  /** Removing an item from the queue keeps the invariant. */
  lemma PopConsistent(inst: Instance, st: Search, i: nat)
    requires ValidInstance(inst) && Consistent(inst, st) && i < |st.queue|
    ensures Consistent(inst, Search(st.visited, st.auxMap, st.queue[..i] + st.queue[i + 1..]))
  {
    var rest := st.queue[..i] + st.queue[i + 1..];
    assert forall k :: 0 <= k < |rest| ==> rest[k] in st.queue;
  }

  /** Expanding the popped top item keeps the invariant. */
  lemma ExpandTopConsistent(inst: Instance, st: Search, i: nat)
    requires ValidInstance(inst) && NonNegativeTimes(inst) && Consistent(inst, st) && i < |st.queue|
    requires st.queue[i].key in st.auxMap && StateOk(inst, st.auxMap[st.queue[i].key])
    requires NodeOk(inst, st.visited, st.auxMap, st.queue[i].key) && st.visited[st.queue[i].key].g == st.queue[i].g
    ensures var popped := Search(st.visited, st.auxMap, st.queue[..i] + st.queue[i + 1..]);
      Consistent(inst, ExpandFrom(inst, popped, st.queue[i], st.auxMap[st.queue[i].key], 0))
  {
    var current := st.queue[i];
    var popped := Search(st.visited, st.auxMap, st.queue[..i] + st.queue[i + 1..]);
    PopConsistent(inst, st, i);
    ExpandFromConsistent(inst, popped, current, st.auxMap[current.key], 0);
  }
}
