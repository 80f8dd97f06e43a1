/**
  The genetic algorithm's operators (src/genetic/genetic.cpp). Every random
  draw is a parameter: the shuffle is the list of positions drawn by the
  forward Fisher-Yates pass of `std::shuffle`, a tournament is the list of
  drawn population indices, a crossover is its two drawn cut points, a
  mutation is its decision and its two distinct positions.
 */
module Genetic {
  import opened Core
  import opened Decoder

  /** No entry occurs twice. */
  predicate Distinct(s: seq<OpRef>) {
    forall i, k :: 0 <= i < k < |s| ==> s[i] != s[k]
  }

  /** `s` holds exactly the entries of `base`, in some order. */
  predicate IsArrangementOf(s: seq<OpRef>, base: seq<OpRef>) {
    multiset(s) == multiset(base)
  }

  lemma {:induction false} DistinctMultiplicity(s: seq<OpRef>, x: OpRef)
    requires Distinct(s)
    ensures multiset(s)[x] <= 1
    decreases |s|
  {
    if |s| > 0 {
      var n := |s| - 1;
      assert s == s[..n] + [s[n]];
      DistinctMultiplicity(s[..n], x);
      if x == s[n] {
        assert x !in s[..n];
      }
    }
  }

  /** A rearrangement of a duplicate-free sequence is duplicate-free. */
  lemma ArrangementDistinct(s: seq<OpRef>, base: seq<OpRef>)
    requires Distinct(base) && IsArrangementOf(s, base)
    ensures Distinct(s)
  {
    forall i, k | 0 <= i < k < |s|
      ensures s[i] != s[k]
    {
      if s[i] == s[k] {
        assert s == s[..k] + s[k..];
        assert s[i] in multiset(s[..k]) && s[k] in multiset(s[k..]);
        assert multiset(s)[s[i]] >= 2;
        DistinctMultiplicity(base, s[i]);
      }
    }
  }

  /** A rearrangement of a valid order is valid. */
  lemma ArrangementValid(inst: Instance, s: seq<OpRef>, base: seq<OpRef>)
    requires ValidSequence(inst, base) && IsArrangementOf(s, base)
    ensures ValidSequence(inst, s)
  {
    forall i | 0 <= i < |s|
      ensures ValidRef(inst, s[i])
    {
      assert s[i] in multiset(base);
    }
  }

  // ----- generate_random_solution / generate_population -----

  /** `(jobId, 0), (jobId, 1), ...`: the entries of one job with `count` operations. */
  function JobEntries(jobId: nat, count: nat): (r: seq<OpRef>)
    ensures |r| == count
    ensures forall o :: 0 <= o < count ==> r[o] == OpRef(jobId, o)
    decreases count
  {
    if count == 0 then [] else JobEntries(jobId, count - 1) + [OpRef(jobId, count - 1)]
  }

  /** `(job.job_id, op_id)` for the operations of the first `k` jobs, job by job. */
  function EnumerateFirst(jobs: seq<Job>, k: nat): seq<OpRef>
    requires k <= |jobs|
    decreases k
  {
    if k == 0 then []
    else EnumerateFirst(jobs, k - 1) + JobEntries(jobs[k - 1].jobId, |jobs[k - 1].operations|)
  }

  /** The order `generate_random_solution` builds before shuffling. */
  function AllOperations(inst: Instance): seq<OpRef> {
    EnumerateFirst(inst.jobs, |inst.jobs|)
  }

  lemma {:induction false} EnumerateFirstExact(inst: Instance, k: nat)
    requires JobIdsAreIndices(inst) && k <= |inst.jobs|
    ensures |EnumerateFirst(inst.jobs, k)| == OpsOfFirst(inst.jobs, k)
    ensures forall x :: x in EnumerateFirst(inst.jobs, k) <==> x.job < k && ValidRef(inst, x)
    ensures Distinct(EnumerateFirst(inst.jobs, k))
    decreases k
  {
    if k > 0 {
      EnumerateFirstExact(inst, k - 1);
      var front := EnumerateFirst(inst.jobs, k - 1);
      var last := JobEntries(inst.jobs[k - 1].jobId, |inst.jobs[k - 1].operations|);
      var all := front + last;
      forall x: OpRef
        ensures x in all <==> x.job < k && ValidRef(inst, x)
      {
        if x.job == k - 1 && ValidRef(inst, x) {
          assert last[x.op] == x;
        }
      }
      forall i, l | 0 <= i < l < |all|
        ensures all[i] != all[l]
      {
        if l >= |front| && i < |front| {
          assert all[i] in front;
        }
      }
    }
  }

  /**
    Before the shuffle the order lists every operation of the instance
    exactly once (the reader's job identifiers are the job positions).
   */
  lemma AllOperationsExact(inst: Instance)
    requires JobIdsAreIndices(inst)
    ensures |AllOperations(inst)| == TotalOps(inst)
    ensures forall x :: x in AllOperations(inst) <==> ValidRef(inst, x)
    ensures Distinct(AllOperations(inst))
    ensures ValidSequence(inst, AllOperations(inst))
  {
    EnumerateFirstExact(inst, |inst.jobs|);
    var all := AllOperations(inst);
    assert forall i :: 0 <= i < |all| ==> all[i] in all;
  }

  function Swap(s: seq<OpRef>, i: nat, j: nat): (r: seq<OpRef>)
    requires i < |s| && j < |s|
    ensures |r| == |s| && multiset(r) == multiset(s)
    ensures r[i] == s[j] && r[j] == s[i]
    ensures forall k :: 0 <= k < |s| && k != i && k != j ==> r[k] == s[k]
  {
    s[i := s[j]][j := s[i]]
  }

  /** Drawn positions for a forward Fisher-Yates pass: position `i` is swapped with `draws[i] <= i`. */
  predicate IsShuffleDraws(draws: seq<nat>, n: nat) {
    |draws| == n && forall i :: 0 <= i < n ==> draws[i] <= i
  }

  function ShuffleFrom(s: seq<OpRef>, draws: seq<nat>, i: nat): (r: seq<OpRef>)
    requires IsShuffleDraws(draws, |s|) && i <= |s|
    ensures |r| == |s| && multiset(r) == multiset(s)
    decreases |s| - i
  {
    if i == |s| then s else ShuffleFrom(Swap(s, i, draws[i]), draws, i + 1)
  }

  /** `std::shuffle`: swaps positions 1, 2, ... with the drawn positions at or before them. */
  function Shuffle(s: seq<OpRef>, draws: seq<nat>): seq<OpRef>
    requires IsShuffleDraws(draws, |s|)
  {
    if |s| == 0 then s else ShuffleFrom(s, draws, 1)
  }

  /**
    `generate_random_solution`: a shuffled list of every operation, with no
    start times and the default makespan 0.
   */
  function GenerateRandomSolution(inst: Instance, draws: seq<nat>): (sol: Solution)
    requires IsShuffleDraws(draws, |AllOperations(inst)|)
    ensures IsArrangementOf(sol.operationSequence, AllOperations(inst))
    ensures |sol.operationSequence| == |AllOperations(inst)|
    ensures sol.startTimes == [] && sol.makespan == 0
  {
    Solution(Shuffle(AllOperations(inst), draws), [], 0)
  }

  /** `generate_population`: one random solution per list of draws. */
  function GeneratePopulation(inst: Instance, draws: seq<seq<nat>>): (population: seq<Solution>)
    requires forall i :: 0 <= i < |draws| ==> IsShuffleDraws(draws[i], |AllOperations(inst)|)
    ensures |population| == |draws|
    ensures forall i :: 0 <= i < |draws| ==>
      IsArrangementOf(population[i].operationSequence, AllOperations(inst))
  {
    seq(|draws|, i requires 0 <= i < |draws| => GenerateRandomSolution(inst, draws[i]))
  }

  // ----- tournament_selection -----

  /** Every member is a valid dispatch order for the instance. */
  predicate PopulationValid(inst: Instance, population: seq<Solution>) {
    forall i :: 0 <= i < |population| ==> ValidSequence(inst, population[i].operationSequence)
  }

  /** The makespan of the contender at pick `i`. */
  function ContenderMakespan(inst: Instance, population: seq<Solution>, picks: seq<nat>, i: nat): int
    requires ValidInstance(inst) && PopulationValid(inst, population)
    requires i < |picks| && picks[i] < |population|
  {
    SequenceMakespan(inst, population[picks[i]].operationSequence)
  }

  /** The population indices a tournament draws: `max(1, tournament_size)` of them, all in range. */
  predicate IsTournamentDraw(picks: seq<nat>, populationSize: nat, tournamentSize: nat) {
    && |picks| == Max(1, tournamentSize)
    && forall i :: 0 <= i < |picks| ==> picks[i] < populationSize
  }

  /** The makespans of the drawn contenders, in draw order. */
  function ContenderMakespans(inst: Instance, population: seq<Solution>, picks: seq<nat>): (costs: seq<int>)
    requires ValidInstance(inst) && PopulationValid(inst, population)
    requires forall i :: 0 <= i < |picks| ==> picks[i] < |population|
    ensures |costs| == |picks|
    ensures forall i :: 0 <= i < |picks| ==> costs[i] == ContenderMakespan(inst, population, picks, i)
  {
    seq(|picks|, i requires 0 <= i < |picks| => ContenderMakespan(inst, population, picks, i))
  }

  /**
    Pick `k` wins among the first `n` picks: no contender there has a smaller
    makespan and every earlier one has a strictly larger one.
   */
  predicate WinsAmong(costs: seq<int>, n: nat, k: nat)
    requires n <= |costs|
  {
    && k < n
    && (forall i :: 0 <= i < n ==> costs[k] <= costs[i])
    && (forall i :: 0 <= i < k ==> costs[i] > costs[k])
  }

  /** The scan of `tournament_selection` over the first `n` picks. */
  function Winner(costs: seq<int>, n: nat): (k: nat)
    requires 1 <= n <= |costs|
    ensures WinsAmong(costs, n, k)
    decreases n
  {
    if n == 1 then 0
    else
      var k := Winner(costs, n - 1);
      if costs[n - 1] < costs[k] then n - 1 else k
  }

  /**
    `tournament_selection`: the drawn contender with the smallest makespan;
    on ties the earliest drawn one is kept, because only a strictly smaller
    makespan replaces the current best.
   */
  function TournamentSelection(inst: Instance, population: seq<Solution>, tournamentSize: nat, picks: seq<nat>)
    : (winner: Solution)
    requires ValidInstance(inst) && PopulationValid(inst, population) && |population| > 0
    requires IsTournamentDraw(picks, |population|, tournamentSize)
    ensures exists k: nat :: WinsAmong(ContenderMakespans(inst, population, picks), |picks|, k) && winner == population[picks[k]]
  {
    var k := Winner(ContenderMakespans(inst, population, picks), |picks|);
    population[picks[k]]
  }

  // ----- order_crossover -----

  /** `s` read cyclically from position `k`. */
  function Rotate(s: seq<OpRef>, k: nat): (r: seq<OpRef>)
    requires k <= |s|
    ensures |r| == |s| && multiset(r) == multiset(s)
  {
    assert s == s[..k] + s[k..];
    s[k..] + s[..k]
  }

  /** The entries of `s` that do not occur in `excluded`, in order. */
  function Without(s: seq<OpRef>, excluded: seq<OpRef>): (r: seq<OpRef>)
    ensures forall x :: multiset(r)[x] == if x in excluded then 0 else multiset(s)[x]
    decreases |s|
  {
    if |s| == 0 then []
    else
      var rest := Without(s[1..], excluded);
      assert s == [s[0]] + s[1..];
      if s[0] in excluded then rest else [s[0]] + rest
  }

  /** The two parents are arrangements of one duplicate-free list, as every member of a population is. */
  predicate CrossoverParents(p1: seq<OpRef>, p2: seq<OpRef>) {
    |p1| > 0 && |p2| == |p1| && Distinct(p1) && IsArrangementOf(p2, p1)
  }

  function SegmentStart(a: nat, b: nat): nat { if a <= b then a else b }
  function SegmentEnd(a: nat, b: nat): nat { if a <= b then b else a }

  /** Parent 2 read cyclically from just after the segment, minus the segment's entries. */
  function Filler(p1: seq<OpRef>, p2: seq<OpRef>, a: nat, b: nat): seq<OpRef>
    requires |p2| == |p1| && a < |p1| && b < |p1|
  {
    var n := |p1|;
    Without(Rotate(p2, (SegmentEnd(a, b) + 1) % n), p1[SegmentStart(a, b)..SegmentEnd(a, b) + 1])
  }

  /** The filler and the segment together hold exactly the entries of parent 1. */
  lemma FillerComplementsSegment(p1: seq<OpRef>, p2: seq<OpRef>, a: nat, b: nat)
    requires CrossoverParents(p1, p2) && a < |p1| && b < |p1|
    ensures multiset(Filler(p1, p2, a, b)) + multiset(p1[SegmentStart(a, b)..SegmentEnd(a, b) + 1]) == multiset(p1)
    ensures |Filler(p1, p2, a, b)| == |p1| - (SegmentEnd(a, b) - SegmentStart(a, b) + 1)
  {
    var segment := p1[SegmentStart(a, b)..SegmentEnd(a, b) + 1];
    var fill := Filler(p1, p2, a, b);
    forall x
      ensures (multiset(fill) + multiset(segment))[x] == multiset(p1)[x]
    {
      FillerCountAt(p1, p2, a, b, x);
    }
    assert multiset(fill) + multiset(segment) == multiset(p1);
    assert |multiset(fill) + multiset(segment)| == |multiset(p1)|;
  }

  /** One entry at a time: it is counted once, either in the segment or in the filler. */
  lemma FillerCountAt(p1: seq<OpRef>, p2: seq<OpRef>, a: nat, b: nat, x: OpRef)
    requires CrossoverParents(p1, p2) && a < |p1| && b < |p1|
    ensures multiset(Filler(p1, p2, a, b))[x] + multiset(p1[SegmentStart(a, b)..SegmentEnd(a, b) + 1])[x]
         == multiset(p1)[x]
  {
    var start, end := SegmentStart(a, b), SegmentEnd(a, b);
    var segment := p1[start..end + 1];
    assert p1 == p1[..start] + segment + p1[end + 1..];
    if x in segment {
      DistinctMultiplicity(p1, x);
      assert multiset(segment)[x] >= 1;
    }
  }

  /** The filler's tail, then the segment, then the filler's first `wrapped` entries. */
  function Assemble(fill: seq<OpRef>, segment: seq<OpRef>, wrapped: nat): seq<OpRef>
    requires wrapped <= |fill|
  {
    fill[wrapped..] + segment + fill[..wrapped]
  }

  /** A position past the end, counted cyclically once. */
  function Wrap(x: nat, n: nat): (r: nat)
    requires x < 2 * n
    ensures r < n && r == x % n
  {
    if x < n then x
    else
      ModOnce(x, n);
      x - n
  }

  /** Between `n` and `2 * n` the remainder by `n` is reached by one subtraction. */
  lemma ModOnce(x: int, n: int)
    requires 0 < n <= x < 2 * n
    ensures x % n == x - n
  {
    var q, m := x / n, x % n;
    assert x == q * n + m && 0 <= m < n;
    QuotientIsOne(x, n, q, m);
  }

  /** The only quotient compatible with `n <= x < 2 * n`. */
  lemma QuotientIsOne(x: int, n: int, q: int, m: int)
    requires 0 < n <= x < 2 * n && x == q * n + m && 0 <= m < n
    ensures q == 1
  {
    assert q <= 0 ==> q * n <= 0;
    assert q >= 2 ==> q * n >= 2 * n;
  }

  /**
    With the segment ending at position `end` of an order of length `n`, the
    `k`-th filler entry lands at `end + 1 + k`, counted cyclically.
   */
  lemma AssemblePosition(fill: seq<OpRef>, segment: seq<OpRef>, end: nat, n: nat, k: nat)
    requires |fill| + |segment| == n && |segment| <= end + 1 && end < n && k < |fill|
    ensures Assemble(fill, segment, n - 1 - end)[Wrap(end + 1 + k, n)] == fill[k]
  {
    var wrapped := n - 1 - end;
    var child := Assemble(fill, segment, wrapped);
    var pos := end + 1 + k;
    if pos < n {
      assert child[pos] == fill[..wrapped][k];
    } else {
      assert child[pos - n] == fill[wrapped..][k - wrapped];
    }
  }

  /** The assembled order keeps the segment in place and holds exactly the filler's and the segment's entries. */
  lemma AssembleSegment(fill: seq<OpRef>, segment: seq<OpRef>, end: nat, n: nat)
    requires |fill| + |segment| == n && |segment| <= end + 1 && end < n
    ensures |Assemble(fill, segment, n - 1 - end)| == n
    ensures Assemble(fill, segment, n - 1 - end)[end + 1 - |segment|..end + 1] == segment
    ensures multiset(Assemble(fill, segment, n - 1 - end)) == multiset(fill) + multiset(segment)
  {
    var wrapped := n - 1 - end;
    assert fill == fill[..wrapped] + fill[wrapped..];
  }

  /**
    The order `order_crossover` builds: the segment between the two cut
    points (after ordering them) stays where it is in parent 1, and the
    filler occupies the other positions starting just after the segment and
    wrapping around to the front.
   */
  function CrossoverOrder(p1: seq<OpRef>, p2: seq<OpRef>, a: nat, b: nat): (child: seq<OpRef>)
    requires CrossoverParents(p1, p2) && a < |p1| && b < |p1|
    ensures |child| == |p1|
    ensures child[SegmentStart(a, b)..SegmentEnd(a, b) + 1] == p1[SegmentStart(a, b)..SegmentEnd(a, b) + 1]
    ensures IsArrangementOf(child, p1)
  {
    FillerComplementsSegment(p1, p2, a, b);
    AssembleSegment(Filler(p1, p2, a, b), p1[SegmentStart(a, b)..SegmentEnd(a, b) + 1], SegmentEnd(a, b), |p1|);
    Assemble(Filler(p1, p2, a, b), p1[SegmentStart(a, b)..SegmentEnd(a, b) + 1], |p1| - 1 - SegmentEnd(a, b))
  }

  /**
    The fill order of `order_crossover`: the `k`-th entry of the filler lands
    at position `end + 1 + k`, counted cyclically.
   */
  lemma CrossoverFillOrder(p1: seq<OpRef>, p2: seq<OpRef>, a: nat, b: nat, k: nat)
    requires CrossoverParents(p1, p2) && a < |p1| && b < |p1|
    requires k < |Filler(p1, p2, a, b)|
    ensures SegmentEnd(a, b) + 1 + k < 2 * |p1|
    ensures CrossoverOrder(p1, p2, a, b)[Wrap(SegmentEnd(a, b) + 1 + k, |p1|)] == Filler(p1, p2, a, b)[k]
  {
    var fill := Filler(p1, p2, a, b);
    var segment := p1[SegmentStart(a, b)..SegmentEnd(a, b) + 1];
    var child := CrossoverOrder(p1, p2, a, b);
    FillerComplementsSegment(p1, p2, a, b);
    assert child == Assemble(fill, segment, |p1| - 1 - SegmentEnd(a, b));
    AssemblePosition(fill, segment, SegmentEnd(a, b), |p1|, k);
  }

  /**
    `order_crossover`: the child's order is CrossoverOrder of the parents'
    orders; it has no start times and the default makespan.
   */
  function OrderCrossover(parent1: Solution, parent2: Solution, a: nat, b: nat): (child: Solution)
    requires CrossoverParents(parent1.operationSequence, parent2.operationSequence)
    requires a < |parent1.operationSequence| && b < |parent1.operationSequence|
    ensures |child.operationSequence| == |parent1.operationSequence|
    ensures child.operationSequence[SegmentStart(a, b)..SegmentEnd(a, b) + 1]
         == parent1.operationSequence[SegmentStart(a, b)..SegmentEnd(a, b) + 1]
    ensures IsArrangementOf(child.operationSequence, parent1.operationSequence)
    ensures child.startTimes == [] && child.makespan == 0
  {
    Solution(CrossoverOrder(parent1.operationSequence, parent2.operationSequence, a, b), [], 0)
  }

  // ----- mutate_swap -----

  /** Positions of a swap: two distinct positions in range whenever there are at least two. */
  predicate IsSwapDraw(n: nat, i: nat, j: nat) {
    n >= 2 ==> i < n && j < n && i != j
  }

  /**
    `mutate_swap`: an order of fewer than two entries is left alone; otherwise
    the entries at the two drawn distinct positions trade places. Start times
    and makespan are not touched.
   */
  function MutateSwap(sol: Solution, i: nat, j: nat): (mutated: Solution)
    requires IsSwapDraw(|sol.operationSequence|, i, j)
    ensures |sol.operationSequence| < 2 ==> mutated == sol
    ensures |mutated.operationSequence| == |sol.operationSequence|
    ensures IsArrangementOf(mutated.operationSequence, sol.operationSequence)
    ensures |sol.operationSequence| >= 2 ==>
      && mutated.operationSequence[i] == sol.operationSequence[j]
      && mutated.operationSequence[j] == sol.operationSequence[i]
      && forall k :: 0 <= k < |sol.operationSequence| && k != i && k != j ==>
           mutated.operationSequence[k] == sol.operationSequence[k]
    ensures mutated.startTimes == sol.startTimes && mutated.makespan == sol.makespan
  {
    if |sol.operationSequence| < 2 then sol
    else sol.(operationSequence := Swap(sol.operationSequence, i, j))
  }

  // ----- run_genetic -----

  /** The draws behind one child: two tournaments, two cut points, the mutation decision and its positions. */
  datatype ChildDraws = ChildDraws(picks1: seq<nat>, picks2: seq<nat>, cutA: nat, cutB: nat,
                                   mutate: bool, swapI: nat, swapJ: nat)

  predicate IsChildDraws(d: ChildDraws, populationSize: nat, tournamentSize: nat, n: nat) {
    && IsTournamentDraw(d.picks1, populationSize, tournamentSize)
    && IsTournamentDraw(d.picks2, populationSize, tournamentSize)
    && d.cutA < n && d.cutB < n
    && IsSwapDraw(n, d.swapI, d.swapJ)
  }

  /** Every member is an arrangement of all operations. */
  predicate PopulationOfArrangements(inst: Instance, population: seq<Solution>) {
    forall i :: 0 <= i < |population| ==> IsArrangementOf(population[i].operationSequence, AllOperations(inst))
  }

  lemma ArrangementsValid(inst: Instance, population: seq<Solution>)
    requires JobIdsAreIndices(inst) && PopulationOfArrangements(inst, population)
    ensures PopulationValid(inst, population)
  {
    AllOperationsExact(inst);
    forall i | 0 <= i < |population|
      ensures ValidSequence(inst, population[i].operationSequence)
    {
      ArrangementValid(inst, population[i].operationSequence, AllOperations(inst));
    }
  }

  /** Both tournament winners are arrangements of all operations, so they can be crossed over. */
  lemma SelectedParents(inst: Instance, population: seq<Solution>, tournamentSize: nat, d: ChildDraws)
    requires ValidInstance(inst) && JobIdsAreIndices(inst) && |population| > 0
    requires PopulationOfArrangements(inst, population)
    requires IsChildDraws(d, |population|, tournamentSize, TotalOps(inst))
    ensures PopulationValid(inst, population)
    ensures var p1 := TournamentSelection(inst, population, tournamentSize, d.picks1).operationSequence;
      var p2 := TournamentSelection(inst, population, tournamentSize, d.picks2).operationSequence;
      && IsArrangementOf(p1, AllOperations(inst)) && |p1| == TotalOps(inst)
      && CrossoverParents(p1, p2)
  {
    ArrangementsValid(inst, population);
    AllOperationsExact(inst);
    var w1 := TournamentSelection(inst, population, tournamentSize, d.picks1);
    var w2 := TournamentSelection(inst, population, tournamentSize, d.picks2);
    var k1: nat :| k1 < |d.picks1| && w1 == population[d.picks1[k1]];
    var k2: nat :| k2 < |d.picks2| && w2 == population[d.picks2[k2]];
    var p1, p2 := w1.operationSequence, w2.operationSequence;
    assert IsArrangementOf(p1, AllOperations(inst)) && IsArrangementOf(p2, AllOperations(inst));
    assert |p1| == |AllOperations(inst)| by {
      assert |multiset(p1)| == |multiset(AllOperations(inst))|;
    }
    assert |p2| == |p1| by {
      assert |multiset(p2)| == |multiset(p1)|;
    }
    ArrangementDistinct(p1, AllOperations(inst));
  }

  /** One child: select two parents, cross them over and possibly mutate the offspring. */
  function Breed(inst: Instance, population: seq<Solution>, tournamentSize: nat, d: ChildDraws): (child: Solution)
    requires ValidInstance(inst) && JobIdsAreIndices(inst) && |population| > 0
    requires PopulationOfArrangements(inst, population)
    requires IsChildDraws(d, |population|, tournamentSize, TotalOps(inst))
    ensures IsArrangementOf(child.operationSequence, AllOperations(inst))
    ensures child.startTimes == [] && child.makespan == 0
  {
    SelectedParents(inst, population, tournamentSize, d);
    var parent1 := TournamentSelection(inst, population, tournamentSize, d.picks1);
    var parent2 := TournamentSelection(inst, population, tournamentSize, d.picks2);
    var offspring := OrderCrossover(parent1, parent2, d.cutA, d.cutB);
    if d.mutate then MutateSwap(offspring, d.swapI, d.swapJ) else offspring
  }

  /**
    The best solution so far and the trace of best makespans: the best is an
    arrangement of all operations, `bestMakespan` is its makespan, the trace
    ends with it and never increases.
   */
  predicate BestSoFar(inst: Instance, best: Solution, bestMakespan: int, trace: seq<int>)
    requires ValidInstance(inst) && JobIdsAreIndices(inst)
  {
    && IsArrangementOf(best.operationSequence, AllOperations(inst))
    && ValidSequence(inst, best.operationSequence)
    && bestMakespan == SequenceMakespan(inst, best.operationSequence)
    && |trace| > 0 && trace[|trace| - 1] == bestMakespan
    && NonIncreasing(trace)
  }

  /** Each entry is at most the one before it. */
  predicate NonIncreasing(trace: seq<int>) {
    forall i :: 0 < i < |trace| ==> trace[i] <= trace[i - 1]
  }

  /** A trace that never steps up never rises above any earlier entry. */
  lemma {:induction false} NonIncreasingPairs(trace: seq<int>, i: nat, k: nat)
    requires NonIncreasing(trace) && i <= k < |trace|
    ensures trace[k] <= trace[i]
    decreases k - i
  {
    if i < k {
      NonIncreasingPairs(trace, i, k - 1);
    }
  }

  /**
    The record `run_genetic` returns: the decoded first member of the initial
    population carries its start times and makespan, while a child that
    replaced it is returned as bred, with no start times and makespan 0.
   */
  predicate ReturnedRecord(inst: Instance, best: Solution, bestMakespan: int)
    requires ValidInstance(inst) && ValidSequence(inst, best.operationSequence)
  {
    || (best.startTimes == [] && best.makespan == 0)
    || (IsDecoded(inst, best.operationSequence, best.startTimes) && best.makespan == bestMakespan)
  }

  /** No member of `population` beats `bestMakespan`. */
  predicate NoneBetter(inst: Instance, population: seq<Solution>, bestMakespan: int)
    requires ValidInstance(inst) && PopulationValid(inst, population)
  {
    forall i :: 0 <= i < |population| ==> bestMakespan <= SequenceMakespan(inst, population[i].operationSequence)
  }

  /** Records one new candidate: it replaces the best only when strictly better. */
  lemma RecordCandidate(inst: Instance, best: Solution, bestMakespan: int, trace: seq<int>, child: Solution,
                        newBest: Solution, newMakespan: int)
    requires ValidInstance(inst) && JobIdsAreIndices(inst)
    requires BestSoFar(inst, best, bestMakespan, trace)
    requires IsArrangementOf(child.operationSequence, AllOperations(inst))
    requires ValidSequence(inst, child.operationSequence)
    requires var m := SequenceMakespan(inst, child.operationSequence);
      if m < bestMakespan then newBest == child && newMakespan == m
      else newBest == best && newMakespan == bestMakespan
    ensures BestSoFar(inst, newBest, newMakespan, trace + [newMakespan])
    ensures newMakespan <= bestMakespan
  {
    var grown := trace + [newMakespan];
    assert grown[|trace|] <= grown[|trace| - 1];
  }

  /** Appending a child keeps the new generation's invariants under the updated best makespan. */
  lemma AppendChild(inst: Instance, next: seq<Solution>, child: Solution, bestMakespan: int, newBest: int)
    requires ValidInstance(inst) && JobIdsAreIndices(inst)
    requires PopulationOfArrangements(inst, next) && PopulationValid(inst, next)
    requires NoneBetter(inst, next, bestMakespan)
    requires IsArrangementOf(child.operationSequence, AllOperations(inst))
    requires ValidSequence(inst, child.operationSequence)
    requires newBest == if SequenceMakespan(inst, child.operationSequence) < bestMakespan
                        then SequenceMakespan(inst, child.operationSequence) else bestMakespan
    ensures PopulationOfArrangements(inst, next + [child]) && PopulationValid(inst, next + [child])
    ensures NoneBetter(inst, next + [child], newBest)
  {
    var grown := next + [child];
    forall i | 0 <= i < |grown|
      ensures ValidSequence(inst, grown[i].operationSequence)
      ensures IsArrangementOf(grown[i].operationSequence, AllOperations(inst))
    {
      if i < |next| {
        assert grown[i] == next[i];
      }
    }
    forall i | 0 <= i < |grown|
      ensures newBest <= SequenceMakespan(inst, grown[i].operationSequence)
    {
      if i < |next| {
        assert grown[i] == next[i];
      }
    }
  }

  // ----- the generation loop of run_genetic, as a reference definition -----

  /** A best-so-far record: the solution kept and the makespan it is kept under. */
  datatype BestRecord = BestRecord(best: Solution, makespan: int)

  /** `f` applied to each element in turn. */
  function Map<A, B>(xs: seq<A>, f: A --> B): (ys: seq<B>)
    requires forall i :: 0 <= i < |xs| ==> f.requires(xs[i])
    ensures |ys| == |xs|
    decreases |xs|
  {
    if |xs| == 0 then []
    else
      var n := |xs| - 1;
      Map(xs[..n], f) + [f(xs[n])]
  }

  /** Mapping a prefix one element longer adds that element's image. */
  lemma MapStep<A, B>(xs: seq<A>, f: A --> B, k: nat)
    requires forall i :: 0 <= i < |xs| ==> f.requires(xs[i])
    requires k < |xs|
    ensures Map(xs[..k + 1], f) == Map(xs[..k], f) + [f(xs[k])]
  {
    assert xs[..k + 1][..k] == xs[..k];
  }

  /** Element `i` of the mapped sequence is the image of element `i`. */
  lemma {:induction false} MapIndex<A, B>(xs: seq<A>, f: A --> B)
    requires forall i :: 0 <= i < |xs| ==> f.requires(xs[i])
    ensures forall i :: 0 <= i < |xs| ==> Map(xs, f)[i] == f(xs[i])
    decreases |xs|
  {
    if |xs| > 0 {
      var n := |xs| - 1;
      MapIndex(xs[..n], f);
    }
  }

  /** Breeding from a fixed population: one set of child draws to one child. */
  function Breeder(inst: Instance, population: seq<Solution>, tournamentSize: nat): (breed: ChildDraws --> Solution)
    requires ValidInstance(inst) && JobIdsAreIndices(inst) && |population| > 0
    requires PopulationOfArrangements(inst, population)
    ensures forall d :: IsChildDraws(d, |population|, tournamentSize, TotalOps(inst)) ==> breed.requires(d)
  {
    d requires IsChildDraws(d, |population|, tournamentSize, TotalOps(inst)) => Breed(inst, population, tournamentSize, d)
  }

  /** The children of one generation: child `c` is bred from `population` with the draws `draws[c]`. */
  function Children(inst: Instance, population: seq<Solution>, tournamentSize: nat, draws: seq<ChildDraws>)
    : (children: seq<Solution>)
    requires ValidInstance(inst) && JobIdsAreIndices(inst) && |population| > 0
    requires PopulationOfArrangements(inst, population)
    requires forall c :: 0 <= c < |draws| ==> IsChildDraws(draws[c], |population|, tournamentSize, TotalOps(inst))
    ensures |children| == |draws|
  {
    Map(draws, Breeder(inst, population, tournamentSize))
  }

  /** Each child of a generation is bred with its own draws, and is therefore an arrangement of all operations. */
  lemma ChildrenBred(inst: Instance, population: seq<Solution>, tournamentSize: nat, draws: seq<ChildDraws>)
    requires ValidInstance(inst) && JobIdsAreIndices(inst) && |population| > 0
    requires PopulationOfArrangements(inst, population)
    requires forall c :: 0 <= c < |draws| ==> IsChildDraws(draws[c], |population|, tournamentSize, TotalOps(inst))
    ensures forall c :: 0 <= c < |draws| ==>
      Children(inst, population, tournamentSize, draws)[c] == Breed(inst, population, tournamentSize, draws[c])
    ensures PopulationOfArrangements(inst, Children(inst, population, tournamentSize, draws))
    ensures PopulationValid(inst, Children(inst, population, tournamentSize, draws))
  {
    var breed := Breeder(inst, population, tournamentSize);
    MapIndex(draws, breed);
    ArrangementsValid(inst, Children(inst, population, tournamentSize, draws));
  }

  /** Breeding the next child with the next draws extends the generation's children by it. */
  lemma ChildrenGrow(inst: Instance, population: seq<Solution>, tournamentSize: nat, draws: seq<ChildDraws>,
                     next: seq<Solution>, child: Solution)
    requires ValidInstance(inst) && JobIdsAreIndices(inst) && |population| > 0
    requires PopulationOfArrangements(inst, population)
    requires forall c :: 0 <= c < |draws| ==> IsChildDraws(draws[c], |population|, tournamentSize, TotalOps(inst))
    requires |next| < |draws| && next == Children(inst, population, tournamentSize, draws[..|next|])
    requires child == Breed(inst, population, tournamentSize, draws[|next|])
    ensures next + [child] == Children(inst, population, tournamentSize, draws[..|next| + 1])
  {
    var k := |next|;
    ChildrenPrefixStep(inst, population, tournamentSize, draws, k);
    BreederBreeds(inst, population, tournamentSize, draws[k]);
    var bred := Breeder(inst, population, tournamentSize)(draws[k]);
    assert bred == child;
    assert Children(inst, population, tournamentSize, draws[..k + 1]) == next + [bred];
  }

  /** The children of a prefix one draw longer: those of the prefix, then the next child. */
  lemma ChildrenPrefixStep(inst: Instance, population: seq<Solution>, tournamentSize: nat, draws: seq<ChildDraws>,
                           k: nat)
    requires ValidInstance(inst) && JobIdsAreIndices(inst) && |population| > 0
    requires PopulationOfArrangements(inst, population)
    requires forall c :: 0 <= c < |draws| ==> IsChildDraws(draws[c], |population|, tournamentSize, TotalOps(inst))
    requires k < |draws|
    ensures Children(inst, population, tournamentSize, draws[..k + 1])
         == Children(inst, population, tournamentSize, draws[..k]) + [Breeder(inst, population, tournamentSize)(draws[k])]
  {
    MapStep(draws, Breeder(inst, population, tournamentSize), k);
  }

  /** Applying the breeder to fit draws is breeding with them. */
  lemma BreederBreeds(inst: Instance, population: seq<Solution>, tournamentSize: nat, d: ChildDraws)
    requires ValidInstance(inst) && JobIdsAreIndices(inst) && |population| > 0
    requires PopulationOfArrangements(inst, population)
    requires IsChildDraws(d, |population|, tournamentSize, TotalOps(inst))
    ensures Breeder(inst, population, tournamentSize)(d) == Breed(inst, population, tournamentSize, d)
  {
  }

  /** The makespan `calculate_makespan` gives each candidate, in order. */
  function Makespans(inst: Instance, candidates: seq<Solution>): (costs: seq<int>)
    requires ValidInstance(inst) && PopulationValid(inst, candidates)
    ensures |costs| == |candidates|
  {
    seq(|candidates|, i requires 0 <= i < |candidates| => SequenceMakespan(inst, candidates[i].operationSequence))
  }

  /** Makespans of two runs of candidates, one after the other. */
  lemma MakespansAppend(inst: Instance, first: seq<Solution>, rest: seq<Solution>)
    requires ValidInstance(inst) && PopulationValid(inst, first) && PopulationValid(inst, rest)
    ensures PopulationValid(inst, first + rest)
    ensures Makespans(inst, first + rest) == Makespans(inst, first) + Makespans(inst, rest)
  {
    assert PopulationValid(inst, first + rest) by {
      forall i | 0 <= i < |first + rest|
        ensures ValidSequence(inst, (first + rest)[i].operationSequence)
      {
        if i < |first| {
          assert (first + rest)[i] == first[i];
        } else {
          assert (first + rest)[i] == rest[i - |first|];
        }
      }
    }
  }

  /**
    The record after offering `candidates`, whose makespans are `costs`, to
    `start` in order: a candidate replaces the record, under its own makespan,
    only when strictly better.
   */
  function Champion(start: BestRecord, candidates: seq<Solution>, costs: seq<int>): (r: BestRecord)
    requires |costs| == |candidates|
    decreases |candidates|
  {
    if |candidates| == 0 then start
    else
      var n := |candidates| - 1;
      var earlier := Champion(start, candidates[..n], costs[..n]);
      if costs[n] < earlier.makespan then BestRecord(candidates[n], costs[n]) else earlier
  }

  /** The record's makespan after each candidate in turn. */
  function BestTrace(start: BestRecord, candidates: seq<Solution>, costs: seq<int>): (trace: seq<int>)
    requires |costs| == |candidates|
    ensures |trace| == |candidates|
    decreases |candidates|
  {
    if |candidates| == 0 then []
    else
      var n := |candidates| - 1;
      BestTrace(start, candidates[..n], costs[..n]) + [Champion(start, candidates, costs).makespan]
  }

  /** Candidate `k` is the first whose cost reaches `r`'s makespan, and `r` records it. */
  predicate FirstReaching(candidates: seq<Solution>, costs: seq<int>, k: int, r: BestRecord)
    requires |costs| == |candidates|
  {
    && 0 <= k < |candidates|
    && r == BestRecord(candidates[k], costs[k])
    && forall i :: 0 <= i < k ==> r.makespan < costs[i]
  }

  /** The record never rises above the start, and no candidate costs less. */
  lemma {:induction false} ChampionIsLeast(start: BestRecord, candidates: seq<Solution>, costs: seq<int>)
    requires |costs| == |candidates|
    ensures Champion(start, candidates, costs).makespan <= start.makespan
    ensures forall i :: 0 <= i < |costs| ==> Champion(start, candidates, costs).makespan <= costs[i]
    decreases |candidates|
  {
    if |candidates| > 0 {
      var n := |candidates| - 1;
      ChampionIsLeast(start, candidates[..n], costs[..n]);
      assert forall i :: 0 <= i < n ==> costs[..n][i] == costs[i];
    }
  }

  /**
    Which record wins: the start (exactly when no candidate is strictly better,
    by `ChampionIsLeast`) or the first candidate reaching the least cost,
    which is then below the start's.
   */
  lemma {:induction false} ChampionIsFirstBest(start: BestRecord, candidates: seq<Solution>, costs: seq<int>)
    requires |costs| == |candidates|
    ensures || Champion(start, candidates, costs) == start
            || (&& Champion(start, candidates, costs).makespan < start.makespan
                && exists k :: FirstReaching(candidates, costs, k, Champion(start, candidates, costs)))
    decreases |candidates|
  {
    if |candidates| > 0 {
      var n := |candidates| - 1;
      var prefix, prefixCosts := candidates[..n], costs[..n];
      ChampionIsLeast(start, prefix, prefixCosts);
      ChampionIsFirstBest(start, prefix, prefixCosts);
      var earlier := Champion(start, prefix, prefixCosts);
      if costs[n] < earlier.makespan {
        assert forall i :: 0 <= i < n ==> prefixCosts[i] == costs[i];
        assert FirstReaching(candidates, costs, n, Champion(start, candidates, costs));
      } else if earlier != start {
        var k :| FirstReaching(prefix, prefixCosts, k, earlier);
        assert forall i :: 0 <= i <= k ==> prefixCosts[i] == costs[i] && prefix[i] == candidates[i];
        assert FirstReaching(candidates, costs, k, earlier);
      }
    }
  }

  /** Entry `i` of the trace is the record's makespan once the first `i + 1` candidates have been offered. */
  lemma {:induction false} BestTraceEntries(start: BestRecord, candidates: seq<Solution>, costs: seq<int>)
    requires |costs| == |candidates|
    ensures forall i :: 0 <= i < |candidates| ==>
      BestTrace(start, candidates, costs)[i] == Champion(start, candidates[..i + 1], costs[..i + 1]).makespan
    decreases |candidates|
  {
    if |candidates| > 0 {
      var n := |candidates| - 1;
      var prefix, prefixCosts := candidates[..n], costs[..n];
      BestTraceEntries(start, prefix, prefixCosts);
      forall i | 0 <= i < n
        ensures BestTrace(start, candidates, costs)[i] == Champion(start, candidates[..i + 1], costs[..i + 1]).makespan
      {
        assert prefix[..i + 1] == candidates[..i + 1] && prefixCosts[..i + 1] == costs[..i + 1];
      }
      assert candidates[..n + 1] == candidates && costs[..n + 1] == costs;
    }
  }

  /** Offering one more candidate: the last step of `Champion` and of `BestTrace`. */
  lemma ChampionStep(start: BestRecord, candidates: seq<Solution>, costs: seq<int>, child: Solution, cost: int)
    requires |costs| == |candidates|
    ensures var earlier := Champion(start, candidates, costs);
      Champion(start, candidates + [child], costs + [cost])
        == if cost < earlier.makespan then BestRecord(child, cost) else earlier
    ensures BestTrace(start, candidates + [child], costs + [cost])
         == BestTrace(start, candidates, costs) + [Champion(start, candidates + [child], costs + [cost]).makespan]
  {
    assert (candidates + [child])[..|candidates|] == candidates;
    assert (costs + [cost])[..|costs|] == costs;
  }

  /** Offering two runs of candidates one after the other is offering the second run to the first's record. */
  lemma {:induction false} ChampionAppend(start: BestRecord, first: seq<Solution>, firstCosts: seq<int>,
                                          rest: seq<Solution>, restCosts: seq<int>)
    requires |firstCosts| == |first| && |restCosts| == |rest|
    ensures Champion(start, first + rest, firstCosts + restCosts)
         == Champion(Champion(start, first, firstCosts), rest, restCosts)
    ensures BestTrace(start, first + rest, firstCosts + restCosts)
         == BestTrace(start, first, firstCosts) + BestTrace(Champion(start, first, firstCosts), rest, restCosts)
    decreases |rest|
  {
    if |rest| == 0 {
      assert first + rest == first && firstCosts + restCosts == firstCosts;
    } else {
      var n := |rest| - 1;
      var prefix, prefixCosts := rest[..n], restCosts[..n];
      ChampionAppend(start, first, firstCosts, prefix, prefixCosts);
      assert first + rest == (first + prefix) + [rest[n]];
      assert firstCosts + restCosts == (firstCosts + prefixCosts) + [restCosts[n]];
      ChampionStep(start, first + prefix, firstCosts + prefixCosts, rest[n], restCosts[n]);
      ChampionStep(Champion(start, first, firstCosts), prefix, prefixCosts, rest[n], restCosts[n]);
      assert prefix + [rest[n]] == rest && prefixCosts + [restCosts[n]] == restCosts;
    }
  }

  /** Child draws for every generation: one per member, each fit for a population of `size`. */
  predicate GenerationDraws(inst: Instance, draws: seq<seq<ChildDraws>>, size: nat, tournamentSize: nat) {
    forall g :: 0 <= g < |draws| ==>
      && |draws[g]| == size
      && forall c :: 0 <= c < |draws[g]| ==> IsChildDraws(draws[g][c], size, tournamentSize, TotalOps(inst))
  }

  /** Draws given generation by generation, each of the right length and fit for the population size. */
  lemma DrawsFit(inst: Instance, draws: seq<seq<ChildDraws>>, size: nat, tournamentSize: nat)
    requires forall g :: 0 <= g < |draws| ==> |draws[g]| == size
    requires forall g, c :: 0 <= g < |draws| && 0 <= c < |draws[g]| ==>
      IsChildDraws(draws[g][c], size, tournamentSize, TotalOps(inst))
    ensures GenerationDraws(inst, draws, size, tournamentSize)
  {
  }

  /** The population after the generations drawn in `draws`, each generation replacing the last. */
  function Evolve(inst: Instance, population: seq<Solution>, tournamentSize: nat, draws: seq<seq<ChildDraws>>)
    : (final: seq<Solution>)
    requires ValidInstance(inst) && JobIdsAreIndices(inst) && |population| > 0
    requires PopulationOfArrangements(inst, population)
    requires GenerationDraws(inst, draws, |population|, tournamentSize)
    ensures |final| == |population| && PopulationOfArrangements(inst, final)
    decreases |draws|
  {
    if |draws| == 0 then population
    else
      var n := |draws| - 1;
      assert forall g :: 0 <= g < n ==> draws[..n][g] == draws[g];
      var before := Evolve(inst, population, tournamentSize, draws[..n]);
      ChildrenBred(inst, before, tournamentSize, draws[n]);
      Children(inst, before, tournamentSize, draws[n])
  }

  /** Every child bred over the generations drawn in `draws`, in breeding order. */
  function AllChildren(inst: Instance, population: seq<Solution>, tournamentSize: nat, draws: seq<seq<ChildDraws>>)
    : (children: seq<Solution>)
    requires ValidInstance(inst) && JobIdsAreIndices(inst) && |population| > 0
    requires PopulationOfArrangements(inst, population)
    requires GenerationDraws(inst, draws, |population|, tournamentSize)
    ensures PopulationOfArrangements(inst, children) && PopulationValid(inst, children)
    decreases |draws|
  {
    if |draws| == 0 then []
    else
      var n := |draws| - 1;
      assert forall g :: 0 <= g < n ==> draws[..n][g] == draws[g];
      var earlier := AllChildren(inst, population, tournamentSize, draws[..n]);
      var before := Evolve(inst, population, tournamentSize, draws[..n]);
      ChildrenBred(inst, before, tournamentSize, draws[n]);
      var last := Children(inst, before, tournamentSize, draws[n]);
      ArrangementsJoin(inst, earlier, last);
      earlier + last
  }

  /** Two populations of arrangements, one after the other, are again one. */
  lemma ArrangementsJoin(inst: Instance, first: seq<Solution>, rest: seq<Solution>)
    requires JobIdsAreIndices(inst)
    requires PopulationOfArrangements(inst, first) && PopulationOfArrangements(inst, rest)
    ensures PopulationOfArrangements(inst, first + rest) && PopulationValid(inst, first + rest)
  {
    forall i | 0 <= i < |first + rest|
      ensures IsArrangementOf((first + rest)[i].operationSequence, AllOperations(inst))
    {
      if i < |first| {
        assert (first + rest)[i] == first[i];
      } else {
        assert (first + rest)[i] == rest[i - |first|];
      }
    }
    ArrangementsValid(inst, first + rest);
  }

  /** One more generation: the last step of `Evolve` and of `AllChildren`. */
  lemma GenerationStep(inst: Instance, population: seq<Solution>, tournamentSize: nat,
                       draws: seq<seq<ChildDraws>>, g: nat)
    requires ValidInstance(inst) && JobIdsAreIndices(inst) && |population| > 0
    requires PopulationOfArrangements(inst, population)
    requires GenerationDraws(inst, draws, |population|, tournamentSize) && g < |draws|
    ensures GenerationDraws(inst, draws[..g], |population|, tournamentSize)
    ensures GenerationDraws(inst, draws[..g + 1], |population|, tournamentSize)
    ensures var before := Evolve(inst, population, tournamentSize, draws[..g]);
      && Evolve(inst, population, tournamentSize, draws[..g + 1]) == Children(inst, before, tournamentSize, draws[g])
      && AllChildren(inst, population, tournamentSize, draws[..g + 1])
         == AllChildren(inst, population, tournamentSize, draws[..g]) + Children(inst, before, tournamentSize, draws[g])
  {
    DrawsPrefix(inst, draws, |population|, tournamentSize, g);
    DrawsPrefix(inst, draws, |population|, tournamentSize, g + 1);
    var longer := draws[..g + 1];
    assert longer[..g] == draws[..g] && longer[g] == draws[g];
  }

  /** Draws for the first `k` generations are draws for `k` generations. */
  lemma DrawsPrefix(inst: Instance, draws: seq<seq<ChildDraws>>, size: nat, tournamentSize: nat, k: nat)
    requires GenerationDraws(inst, draws, size, tournamentSize) && k <= |draws|
    ensures GenerationDraws(inst, draws[..k], size, tournamentSize)
  {
    assert forall g :: 0 <= g < k ==> draws[..k][g] == draws[g];
  }

  /**
    The state of a generation after its first `|next|` children: child `c` is
    bred with `draws[c]`, the record is the champion of the children offered
    to `start`, and the trace has grown by the record's makespan after each.
   */
  predicate Bred(inst: Instance, population: seq<Solution>, tournamentSize: nat, draws: seq<ChildDraws>,
                 start: BestRecord, trace0: seq<int>, next: seq<Solution>, record: BestRecord, trace: seq<int>)
    requires ValidInstance(inst) && JobIdsAreIndices(inst) && |population| > 0
    requires PopulationOfArrangements(inst, population)
    requires forall c :: 0 <= c < |draws| ==> IsChildDraws(draws[c], |population|, tournamentSize, TotalOps(inst))
  {
    && |next| <= |draws| && next == Children(inst, population, tournamentSize, draws[..|next|])
    && PopulationOfArrangements(inst, next) && PopulationValid(inst, next)
    && record == Champion(start, next, Makespans(inst, next))
    && trace == trace0 + BestTrace(start, next, Makespans(inst, next))
    && BestSoFar(inst, record.best, record.makespan, trace) && ReturnedRecord(inst, record.best, record.makespan)
    && NoneBetter(inst, next, record.makespan)
  }

  /** Breeding the next child and offering it to the record keeps `Bred`. */
  lemma BredStep(inst: Instance, population: seq<Solution>, tournamentSize: nat, draws: seq<ChildDraws>,
                 start: BestRecord, trace0: seq<int>, next: seq<Solution>, record: BestRecord, trace: seq<int>,
                 child: Solution, newRecord: BestRecord)
    requires ValidInstance(inst) && JobIdsAreIndices(inst) && |population| > 0
    requires PopulationOfArrangements(inst, population)
    requires forall c :: 0 <= c < |draws| ==> IsChildDraws(draws[c], |population|, tournamentSize, TotalOps(inst))
    requires Bred(inst, population, tournamentSize, draws, start, trace0, next, record, trace) && |next| < |draws|
    requires child == Breed(inst, population, tournamentSize, draws[|next|])
    requires ValidSequence(inst, child.operationSequence)
    requires var m := SequenceMakespan(inst, child.operationSequence);
      newRecord == if m < record.makespan then BestRecord(child, m) else record
    ensures Bred(inst, population, tournamentSize, draws, start, trace0, next + [child], newRecord,
                 trace + [newRecord.makespan])
  {
    RecordCandidate(inst, record.best, record.makespan, trace, child, newRecord.best, newRecord.makespan);
    AppendChild(inst, next, child, record.makespan, newRecord.makespan);
    RecordGrows(inst, start, trace0, next, record, trace, child, newRecord);
    ChildrenGrow(inst, population, tournamentSize, draws, next, child);
  }

  /** Offering one more valid child to the champion of a run of children, with the trace growing alongside. */
  lemma RecordGrows(inst: Instance, start: BestRecord, trace0: seq<int>, next: seq<Solution>, record: BestRecord,
                    trace: seq<int>, child: Solution, newRecord: BestRecord)
    requires ValidInstance(inst) && PopulationValid(inst, next) && ValidSequence(inst, child.operationSequence)
    requires record == Champion(start, next, Makespans(inst, next))
    requires trace == trace0 + BestTrace(start, next, Makespans(inst, next))
    requires var m := SequenceMakespan(inst, child.operationSequence);
      newRecord == if m < record.makespan then BestRecord(child, m) else record
    ensures PopulationValid(inst, next + [child])
    ensures newRecord == Champion(start, next + [child], Makespans(inst, next + [child]))
    ensures trace + [newRecord.makespan] == trace0 + BestTrace(start, next + [child], Makespans(inst, next + [child]))
  {
    var m := SequenceMakespan(inst, child.operationSequence);
    MakespansStep(inst, next, child);
    ChampionStep(start, next, Makespans(inst, next), child, m);
    assert trace0 + BestTrace(start, next, Makespans(inst, next)) + [newRecord.makespan]
        == trace0 + (BestTrace(start, next, Makespans(inst, next)) + [newRecord.makespan]);
  }

  /** The makespans of one more candidate. */
  lemma MakespansStep(inst: Instance, candidates: seq<Solution>, child: Solution)
    requires ValidInstance(inst) && PopulationValid(inst, candidates) && ValidSequence(inst, child.operationSequence)
    ensures PopulationValid(inst, candidates + [child])
    ensures Makespans(inst, candidates + [child])
         == Makespans(inst, candidates) + [SequenceMakespan(inst, child.operationSequence)]
  {
    MakespansAppend(inst, candidates, [child]);
  }

  /** Before the first child: no children, the starting record, the starting trace. */
  lemma BredStart(inst: Instance, population: seq<Solution>, tournamentSize: nat, draws: seq<ChildDraws>,
                  start: BestRecord, trace0: seq<int>)
    requires ValidInstance(inst) && JobIdsAreIndices(inst) && |population| > 0
    requires PopulationOfArrangements(inst, population)
    requires forall c :: 0 <= c < |draws| ==> IsChildDraws(draws[c], |population|, tournamentSize, TotalOps(inst))
    requires BestSoFar(inst, start.best, start.makespan, trace0) && ReturnedRecord(inst, start.best, start.makespan)
    ensures Bred(inst, population, tournamentSize, draws, start, trace0, [], start, trace0)
  {
    assert draws[..0] == [];
    assert trace0 + [] == trace0;
  }

  /** After the last child: the generation is `Children`, and the record and trace are those it yields. */
  lemma BredDone(inst: Instance, population: seq<Solution>, tournamentSize: nat, draws: seq<ChildDraws>,
                 start: BestRecord, trace0: seq<int>, next: seq<Solution>, record: BestRecord, trace: seq<int>)
    requires ValidInstance(inst) && JobIdsAreIndices(inst) && |population| > 0
    requires PopulationOfArrangements(inst, population)
    requires forall c :: 0 <= c < |draws| ==> IsChildDraws(draws[c], |population|, tournamentSize, TotalOps(inst))
    requires Bred(inst, population, tournamentSize, draws, start, trace0, next, record, trace) && |next| == |draws|
    ensures next == Children(inst, population, tournamentSize, draws)
    ensures PopulationOfArrangements(inst, next) && PopulationValid(inst, next)
    ensures record == Champion(start, next, Makespans(inst, next))
    ensures trace == trace0 + BestTrace(start, next, Makespans(inst, next))
    ensures BestSoFar(inst, record.best, record.makespan, trace) && ReturnedRecord(inst, record.best, record.makespan)
    ensures NoneBetter(inst, next, record.makespan)
  {
    assert draws[..|next|] == draws;
  }

  /**
    One generation of `run_genetic`: breeds `|population|` children from the
    current population, updating the best after each child.
   */
  method NextGeneration(inst: Instance, population: seq<Solution>, tournamentSize: nat, draws: seq<ChildDraws>,
                        best0: Solution, bestMakespan0: int, trace0: seq<int>)
    returns (next: seq<Solution>, best: Solution, bestMakespan: int, trace: seq<int>)
    requires ValidInstance(inst) && JobIdsAreIndices(inst) && |population| > 0
    requires PopulationOfArrangements(inst, population)
    requires |draws| == |population|
    requires forall c :: 0 <= c < |draws| ==> IsChildDraws(draws[c], |population|, tournamentSize, TotalOps(inst))
    requires BestSoFar(inst, best0, bestMakespan0, trace0) && ReturnedRecord(inst, best0, bestMakespan0)
    ensures next == Children(inst, population, tournamentSize, draws)
    ensures |next| == |population| && PopulationOfArrangements(inst, next) && PopulationValid(inst, next)
    ensures BestRecord(best, bestMakespan) == Champion(BestRecord(best0, bestMakespan0), next, Makespans(inst, next))
    ensures trace == trace0 + BestTrace(BestRecord(best0, bestMakespan0), next, Makespans(inst, next))
    ensures BestSoFar(inst, best, bestMakespan, trace) && ReturnedRecord(inst, best, bestMakespan)
    ensures NoneBetter(inst, next, bestMakespan)
  {
    var start := BestRecord(best0, bestMakespan0);
    next, best, bestMakespan, trace := [], best0, bestMakespan0, trace0;
    BredStart(inst, population, tournamentSize, draws, start, trace0);
    while |next| < |population|
      invariant Bred(inst, population, tournamentSize, draws, start, trace0, next, BestRecord(best, bestMakespan), trace)
      decreases |population| - |next|
    {
      var child := Breed(inst, population, tournamentSize, draws[|next|]);
      AllOperationsExact(inst);
      ArrangementValid(inst, child.operationSequence, AllOperations(inst));
      var makespan := SequenceMakespan(inst, child.operationSequence);
      var newBest, newMakespan := best, bestMakespan;
      if makespan < bestMakespan {
        newBest, newMakespan := child, makespan;
      }
      BredStep(inst, population, tournamentSize, draws, start, trace0, next, BestRecord(best, bestMakespan), trace,
               child, BestRecord(newBest, newMakespan));
      next, best, bestMakespan, trace := next + [child], newBest, newMakespan, trace + [newMakespan];
    }
    BredDone(inst, population, tournamentSize, draws, start, trace0, next, BestRecord(best, bestMakespan), trace);
  }

  /** The record `run_genetic` starts from: the first generated member, decoded, under its makespan. */
  function InitialRecord(inst: Instance, initialDraws: seq<seq<nat>>): (r: BestRecord)
    requires ValidInstance(inst) && JobIdsAreIndices(inst) && |initialDraws| > 0
    requires forall i :: 0 <= i < |initialDraws| ==> IsShuffleDraws(initialDraws[i], |AllOperations(inst)|)
    ensures ValidSequence(inst, r.best.operationSequence)
    ensures r.best.operationSequence == GeneratePopulation(inst, initialDraws)[0].operationSequence
    ensures IsDecoded(inst, r.best.operationSequence, r.best.startTimes)
    ensures r.best.makespan == r.makespan == SequenceMakespan(inst, r.best.operationSequence)
  {
    AllOperationsExact(inst);
    var s := GeneratePopulation(inst, initialDraws)[0].operationSequence;
    ArrangementValid(inst, s, AllOperations(inst));
    var m := SequenceMakespan(inst, s);
    BestRecord(Solution(s, Decode(inst, s), m), m)
  }

  /** The start of `run_genetic`: the generated population and its first member, decoded. */
  method InitialBest(inst: Instance, initialDraws: seq<seq<nat>>)
    returns (population: seq<Solution>, best: Solution, bestMakespan: int)
    requires ValidInstance(inst) && JobIdsAreIndices(inst) && |initialDraws| > 0
    requires forall i :: 0 <= i < |initialDraws| ==> IsShuffleDraws(initialDraws[i], |AllOperations(inst)|)
    ensures population == GeneratePopulation(inst, initialDraws)
    ensures PopulationOfArrangements(inst, population) && PopulationValid(inst, population)
    ensures BestRecord(best, bestMakespan) == InitialRecord(inst, initialDraws)
    ensures BestSoFar(inst, best, bestMakespan, [bestMakespan]) && ReturnedRecord(inst, best, bestMakespan)
  {
    AllOperationsExact(inst);
    population := GeneratePopulation(inst, initialDraws);
    ArrangementsValid(inst, population);
    best, bestMakespan := CalculateMakespan(inst, population[0]);
    DecodedMakespan(inst, best.operationSequence, best.startTimes, bestMakespan);
    ArrangementValid(inst, best.operationSequence, AllOperations(inst));
  }

  /**
    The state of `run_genetic` after the generations drawn in `done`: the
    population is the evolved one, and the record and trace are those that
    offering every child bred so far to `start` yields.
   */
  predicate Evolved(inst: Instance, population0: seq<Solution>, tournamentSize: nat, done: seq<seq<ChildDraws>>,
                    start: BestRecord, population: seq<Solution>, record: BestRecord, trace: seq<int>)
    requires ValidInstance(inst) && JobIdsAreIndices(inst) && |population0| > 0
    requires PopulationOfArrangements(inst, population0)
    requires GenerationDraws(inst, done, |population0|, tournamentSize)
  {
    && population == Evolve(inst, population0, tournamentSize, done)
    && PopulationValid(inst, population)
    && (var bred := AllChildren(inst, population0, tournamentSize, done);
        && record == Champion(start, bred, Makespans(inst, bred))
        && trace == [start.makespan] + BestTrace(start, bred, Makespans(inst, bred)))
    && BestSoFar(inst, record.best, record.makespan, trace) && ReturnedRecord(inst, record.best, record.makespan)
    && |trace| == 1 + |done| * |population0|
    && (|done| > 0 ==> NoneBetter(inst, population, record.makespan))
  }

  /** Before the first generation: the initial population, its decoded first member, a one-entry trace. */
  lemma EvolvedStart(inst: Instance, population0: seq<Solution>, tournamentSize: nat, start: BestRecord)
    requires ValidInstance(inst) && JobIdsAreIndices(inst) && |population0| > 0
    requires PopulationOfArrangements(inst, population0) && PopulationValid(inst, population0)
    requires BestSoFar(inst, start.best, start.makespan, [start.makespan])
    requires ReturnedRecord(inst, start.best, start.makespan)
    ensures GenerationDraws(inst, [], |population0|, tournamentSize)
    ensures Evolved(inst, population0, tournamentSize, [], start, population0, start, [start.makespan])
  {
    assert [start.makespan] + [] == [start.makespan];
  }

  /** One more generation, as `NextGeneration` produces it, keeps `Evolved`. */
  lemma EvolvedStep(inst: Instance, population0: seq<Solution>, tournamentSize: nat, draws: seq<seq<ChildDraws>>,
                    g: nat, start: BestRecord, population: seq<Solution>, record: BestRecord, trace: seq<int>,
                    next: seq<Solution>, newRecord: BestRecord, newTrace: seq<int>)
    requires ValidInstance(inst) && JobIdsAreIndices(inst) && |population0| > 0
    requires PopulationOfArrangements(inst, population0)
    requires GenerationDraws(inst, draws, |population0|, tournamentSize) && g < |draws|
    requires GenerationDraws(inst, draws[..g], |population0|, tournamentSize)
    requires Evolved(inst, population0, tournamentSize, draws[..g], start, population, record, trace)
    requires next == Children(inst, population, tournamentSize, draws[g]) && PopulationValid(inst, next)
    requires newRecord == Champion(record, next, Makespans(inst, next))
    requires newTrace == trace + BestTrace(record, next, Makespans(inst, next))
    requires BestSoFar(inst, newRecord.best, newRecord.makespan, newTrace)
    requires ReturnedRecord(inst, newRecord.best, newRecord.makespan)
    requires NoneBetter(inst, next, newRecord.makespan)
    ensures GenerationDraws(inst, draws[..g + 1], |population0|, tournamentSize)
    ensures Evolved(inst, population0, tournamentSize, draws[..g + 1], start, next, newRecord, newTrace)
  {
    GenerationStep(inst, population0, tournamentSize, draws, g);
    var bred := AllChildren(inst, population0, tournamentSize, draws[..g]);
    assert AllChildren(inst, population0, tournamentSize, draws[..g + 1]) == bred + next;
    RecordAfterGeneration(inst, start, bred, record, trace, next, newRecord, newTrace);
    OneMoreRow(g, |population0|);
  }

  /** `g + 1` rows of `width` entries are `g` rows and one more. */
  lemma OneMoreRow(g: nat, width: nat)
    ensures (g + 1) * width == g * width + width
  {
  }

  /**
    The record and trace after the children bred so far and then one more
    generation are those of offering all of them at once.
   */
  lemma RecordAfterGeneration(inst: Instance, start: BestRecord, bred: seq<Solution>, record: BestRecord,
                              trace: seq<int>, next: seq<Solution>, newRecord: BestRecord, newTrace: seq<int>)
    requires ValidInstance(inst) && PopulationValid(inst, bred) && PopulationValid(inst, next)
    requires record == Champion(start, bred, Makespans(inst, bred))
    requires trace == [start.makespan] + BestTrace(start, bred, Makespans(inst, bred))
    requires newRecord == Champion(record, next, Makespans(inst, next))
    requires newTrace == trace + BestTrace(record, next, Makespans(inst, next))
    ensures PopulationValid(inst, bred + next)
    ensures newRecord == Champion(start, bred + next, Makespans(inst, bred + next))
    ensures newTrace == [start.makespan] + BestTrace(start, bred + next, Makespans(inst, bred + next))
    ensures |newTrace| == |trace| + |next|
  {
    ChampionOfJoined(inst, start, bred, next);
    JoinAssociates([start.makespan], BestTrace(start, bred, Makespans(inst, bred)),
                   BestTrace(record, next, Makespans(inst, next)));
  }

  /** Joining three sequences does not depend on which two are joined first. */
  lemma JoinAssociates<T>(a: seq<T>, b: seq<T>, c: seq<T>)
    ensures (a + b) + c == a + (b + c)
  {
  }

  /** `ChampionAppend` for two runs of candidates offered under their own makespans. */
  lemma ChampionOfJoined(inst: Instance, start: BestRecord, first: seq<Solution>, rest: seq<Solution>)
    requires ValidInstance(inst) && PopulationValid(inst, first) && PopulationValid(inst, rest)
    ensures PopulationValid(inst, first + rest)
    ensures Champion(start, first + rest, Makespans(inst, first + rest))
         == Champion(Champion(start, first, Makespans(inst, first)), rest, Makespans(inst, rest))
    ensures BestTrace(start, first + rest, Makespans(inst, first + rest))
         == BestTrace(start, first, Makespans(inst, first))
            + BestTrace(Champion(start, first, Makespans(inst, first)), rest, Makespans(inst, rest))
  {
    MakespansAppend(inst, first, rest);
    ChampionAppend(start, first, Makespans(inst, first), rest, Makespans(inst, rest));
  }

  /** After the last generation: what `run_genetic` returns, read off `Evolved`. */
  lemma EvolvedDone(inst: Instance, population0: seq<Solution>, tournamentSize: nat, draws: seq<seq<ChildDraws>>,
                    start: BestRecord, population: seq<Solution>, record: BestRecord, trace: seq<int>)
    requires ValidInstance(inst) && JobIdsAreIndices(inst) && |population0| > 0
    requires PopulationOfArrangements(inst, population0)
    requires GenerationDraws(inst, draws, |population0|, tournamentSize)
    requires Evolved(inst, population0, tournamentSize, draws, start, population, record, trace)
    ensures population == Evolve(inst, population0, tournamentSize, draws)
    ensures var bred := AllChildren(inst, population0, tournamentSize, draws);
      && record == Champion(start, bred, Makespans(inst, bred))
      && trace == [start.makespan] + BestTrace(start, bred, Makespans(inst, bred))
    ensures |population| == |population0| && PopulationValid(inst, population)
    ensures BestSoFar(inst, record.best, record.makespan, trace) && ReturnedRecord(inst, record.best, record.makespan)
    ensures |trace| == 1 + |draws| * |population0| && record.makespan <= trace[0]
    ensures |draws| > 0 ==> NoneBetter(inst, population, record.makespan)
  {
    NonIncreasingPairs(trace, 0, |trace| - 1);
  }

  /** The prefix as long as the whole sequence is the sequence. */
  lemma WholePrefix<T>(xs: seq<T>, k: nat)
    requires k == |xs|
    ensures xs[..k] == xs
  {
  }

  /**
    The generation loop of `run_genetic`, from the initial population and
    its decoded first member as `start`.
   */
  method RunGenerations(inst: Instance, population0: seq<Solution>, tournamentSize: nat,
                        draws: seq<seq<ChildDraws>>, best0: Solution, bestMakespan0: int)
    returns (population: seq<Solution>, best: Solution, bestMakespan: int, trace: seq<int>)
    requires ValidInstance(inst) && JobIdsAreIndices(inst) && |population0| > 0
    requires PopulationOfArrangements(inst, population0) && PopulationValid(inst, population0)
    requires GenerationDraws(inst, draws, |population0|, tournamentSize)
    requires BestSoFar(inst, best0, bestMakespan0, [bestMakespan0]) && ReturnedRecord(inst, best0, bestMakespan0)
    ensures population == Evolve(inst, population0, tournamentSize, draws)
    ensures var bred := AllChildren(inst, population0, tournamentSize, draws);
      && BestRecord(best, bestMakespan) == Champion(BestRecord(best0, bestMakespan0), bred, Makespans(inst, bred))
      && trace == [bestMakespan0] + BestTrace(BestRecord(best0, bestMakespan0), bred, Makespans(inst, bred))
    ensures |population| == |population0| && PopulationValid(inst, population)
    ensures BestSoFar(inst, best, bestMakespan, trace) && ReturnedRecord(inst, best, bestMakespan)
    ensures |trace| == 1 + |draws| * |population0| && bestMakespan <= trace[0]
    ensures |draws| > 0 ==> NoneBetter(inst, population, bestMakespan)
  {
    var start := BestRecord(best0, bestMakespan0);
    population, best, bestMakespan, trace := population0, best0, bestMakespan0, [bestMakespan0];
    EvolvedStart(inst, population0, tournamentSize, start);

    var g := 0;
    while g < |draws|
      invariant 0 <= g <= |draws| && GenerationDraws(inst, draws[..g], |population0|, tournamentSize)
      invariant Evolved(inst, population0, tournamentSize, draws[..g], start, population,
                        BestRecord(best, bestMakespan), trace)
    {
      ghost var record := BestRecord(best, bestMakespan);
      ghost var before, traceBefore := population, trace;
      population, best, bestMakespan, trace :=
        NextGeneration(inst, population, tournamentSize, draws[g], best, bestMakespan, trace);
      EvolvedStep(inst, population0, tournamentSize, draws, g, start, before, record, traceBefore,
                  population, BestRecord(best, bestMakespan), trace);
      g := g + 1;
    }
    WholePrefix(draws, g);
    EvolvedDone(inst, population0, tournamentSize, draws, start, population, BestRecord(best, bestMakespan), trace);
  }

  /**
    `run_genetic`: generates the population, decodes its first member as the
    best so far, then builds each generation child by child, replacing the
    best whenever a child's makespan is strictly smaller. `trace` lists the
    best makespan initially and after every child.
   */
  method RunGenetic(inst: Instance, populationSize: nat, generations: nat, tournamentSize: nat,
                    initialDraws: seq<seq<nat>>, draws: seq<seq<ChildDraws>>)
    returns (best: Solution, bestMakespan: int, population: seq<Solution>, trace: seq<int>)
    requires ValidInstance(inst) && JobIdsAreIndices(inst)
    requires populationSize >= 1 && |initialDraws| == populationSize
    requires forall i :: 0 <= i < |initialDraws| ==> IsShuffleDraws(initialDraws[i], |AllOperations(inst)|)
    requires |draws| == generations
    requires forall g :: 0 <= g < |draws| ==> |draws[g]| == populationSize
    requires forall g, c :: 0 <= g < |draws| && 0 <= c < |draws[g]| ==>
      IsChildDraws(draws[g][c], populationSize, tournamentSize, TotalOps(inst))
    ensures GenerationDraws(inst, draws, populationSize, tournamentSize)
    ensures population == Evolve(inst, GeneratePopulation(inst, initialDraws), tournamentSize, draws)
    ensures var bred := AllChildren(inst, GeneratePopulation(inst, initialDraws), tournamentSize, draws);
      && BestRecord(best, bestMakespan) == Champion(InitialRecord(inst, initialDraws), bred, Makespans(inst, bred))
      && trace == [InitialRecord(inst, initialDraws).makespan]
                  + BestTrace(InitialRecord(inst, initialDraws), bred, Makespans(inst, bred))
    ensures |population| == populationSize && PopulationValid(inst, population)
    ensures BestSoFar(inst, best, bestMakespan, trace) && ReturnedRecord(inst, best, bestMakespan)
    ensures |trace| == 1 + generations * populationSize && bestMakespan <= trace[0]
    ensures generations > 0 ==> NoneBetter(inst, population, bestMakespan)
  {
    var population0;
    population0, best, bestMakespan := InitialBest(inst, initialDraws);
    DrawsFit(inst, draws, populationSize, tournamentSize);
    population, best, bestMakespan, trace := RunGenerations(inst, population0, tournamentSize, draws, best, bestMakespan);
  }
}
