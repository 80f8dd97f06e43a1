/**
  The instance reader `load_instance_from_file` (src/io/file_io.cpp). The file
  is a list of whitespace-separated integers:

    n_jobs n_machines
    for each job: n_machines machine ids, then n_machines processing times
    the n_machines x n_machines transport matrix, row by row

  Stream extraction is modelled by the sequence of integers the file holds;
  the writer below produces that layout, and the two round-trip lemmas show
  the layout loses nothing in either direction.
 */
module FileIo {
  import opened Wrappers
  import opened Core

  /** What opening the file gives: nothing, or the integers it holds, in order. */
  datatype Source = Unopenable | Tokens(tokens: seq<int>)

  /**
    Offset of row `i` in a row-major block of width `w`, that is `i * w`,
    written as repeated addition so that positions stay linear arithmetic.
   */
  function RowStart(i: nat, w: nat): nat
    decreases i
  {
    if i == 0 then 0 else RowStart(i - 1, w) + w
  }

  /** Position of job `j`'s first machine-id token: after the two counts and `j` blocks of `2 m` tokens. */
  function JobBase(j: nat, m: nat): nat {
    2 + RowStart(j, 2 * m)
  }

  /** Position of the first transport-matrix token after `n` jobs. */
  function MatrixBase(n: nat, m: nat): nat {
    JobBase(n, m)
  }

  /** Number of tokens the reader extracts for `n` jobs on `m` machines. */
  function Needed(n: nat, m: nat): nat {
    MatrixBase(n, m) + RowStart(m, m)
  }

  lemma {:induction false} RowStartIsProduct(i: nat, w: nat)
    ensures RowStart(i, w) == i * w
    decreases i
  {
    if i > 0 {
      RowStartIsProduct(i - 1, w);
    }
  }

  /** The reader consumes `2 + 2 n m + m^2` tokens. */
  lemma NeededClosedForm(n: nat, m: nat)
    ensures Needed(n, m) == 2 + 2 * n * m + m * m
  {
    RowStartIsProduct(n, 2 * m);
    RowStartIsProduct(m, m);
  }

  lemma JobBaseStep(j: nat, m: nat)
    ensures JobBase(j + 1, m) == JobBase(j, m) + 2 * m
  {
  }

  lemma {:induction false} RowStartMonotone(i: nat, k: nat, w: nat)
    requires i < k
    ensures RowStart(i, w) + w <= RowStart(k, w)
    decreases k - i
  {
    if i + 1 < k {
      RowStartMonotone(i + 1, k, w);
    }
  }

  lemma JobBaseMonotone(j: nat, k: nat, m: nat)
    requires j < k
    ensures JobBase(j, m) + 2 * m <= JobBase(k, m)
  {
    RowStartMonotone(j, k, 2 * m);
  }

  /** Cell `(i, k)` of a row-major block of `rows` rows of width `m` lies inside the block. */
  lemma CellBound(i: nat, k: nat, rows: nat, m: nat)
    requires i < rows && k < m
    ensures RowStart(i, m) + k < RowStart(rows, m)
  {
    RowStartMonotone(i, rows, m);
  }

  /** The machine-id token of operation `op` of job `j`. */
  function MachineToken(t: seq<int>, n: nat, m: nat, j: nat, op: nat): int
    requires j < n && op < m && Needed(n, m) <= |t|
  {
    JobInside(t, n, m, j);
    t[JobBase(j, m) + op]
  }

  /** The processing-time token of operation `op` of job `j`. */
  function TimeToken(t: seq<int>, n: nat, m: nat, j: nat, op: nat): int
    requires j < n && op < m && Needed(n, m) <= |t|
  {
    JobInside(t, n, m, j);
    t[JobBase(j, m) + m + op]
  }

  /** The transport-matrix token of row `i`, column `k`, after `n` jobs. */
  function MatrixToken(t: seq<int>, n: nat, m: nat, i: nat, k: nat): int
    requires i < m && k < m && Needed(n, m) <= |t|
  {
    CellBound(i, k, m, m);
    t[MatrixBase(n, m) + RowStart(i, m) + k]
  }

  /** Job `j`'s tokens lie inside a file of `Needed(n, m)` tokens. */
  lemma JobInside(t: seq<int>, n: nat, m: nat, j: nat)
    requires j < n && Needed(n, m) <= |t|
    ensures JobBase(j, m) + 2 * m <= |t|
  {
    JobBaseMonotone(j, n, m);
  }

  /**
    The file holds every token the reader extracts, and a non-negative value
    wherever a `size_t` is extracted (the two counts and the machine ids).
   */
  predicate Complete(t: seq<int>) {
    && |t| >= 2 && t[0] >= 0 && t[1] >= 0
    && |t| >= Needed(t[0], t[1])
    && forall j: nat, op: nat :: j < t[0] && op < t[1] ==>
         MachineToken(t, t[0], t[1], j, op) >= 0
  }

  /**
    What the reader builds from the tokens `t`: `t[0]` jobs on `t[1]` machines,
    job `j` with identifier `j` and `t[1]` operations, operation `op` carrying
    its job, its own index, its machine token and its time token, and the
    square matrix read row by row after the last job.
   */
  predicate ReadsAs(t: seq<int>, inst: Instance)
    requires Complete(t)
  {
    var n, m := t[0], t[1];
    && |inst.jobs| == n && inst.numMachines == m
    && (forall j :: 0 <= j < n ==>
          inst.jobs[j].jobId == j && |inst.jobs[j].operations| == m)
    && (forall j, op :: 0 <= j < n && 0 <= op < m && |inst.jobs[j].operations| == m ==>
          inst.jobs[j].operations[op] == Operation(j, op, MachineToken(t, n, m, j, op), TimeToken(t, n, m, j, op)))
    && |inst.transportTimes| == m
    && (forall i :: 0 <= i < m ==> |inst.transportTimes[i]| == m)
    && (forall i, k :: 0 <= i < m && 0 <= k < m && |inst.transportTimes[i]| == m ==>
          inst.transportTimes[i][k] == MatrixToken(t, n, m, i, k))
  }

  /** Only one instance reads from a given file. */
  lemma ReadsAsUnique(t: seq<int>, a: Instance, b: Instance)
    requires Complete(t) && ReadsAs(t, a) && ReadsAs(t, b)
    ensures a == b
  {
    var n, m := t[0], t[1];
    forall j | 0 <= j < n
      ensures a.jobs[j] == b.jobs[j]
    {
      assert a.jobs[j].operations == b.jobs[j].operations;
    }
    assert a.jobs == b.jobs;
    forall i | 0 <= i < m
      ensures a.transportTimes[i] == b.transportTimes[i]
    {
    }
    assert a.transportTimes == b.transportTimes;
  }

  /**
    The shape of every instance the reader produces: identifiers are
    positions, every job has one operation per machine, the matrix is square.
   */
  predicate Canonical(inst: Instance) {
    var m := inst.numMachines;
    && (forall j :: 0 <= j < |inst.jobs| ==>
          inst.jobs[j].jobId == j && |inst.jobs[j].operations| == m)
    && (forall j, op :: 0 <= j < |inst.jobs| && 0 <= op < |inst.jobs[j].operations| ==>
          inst.jobs[j].operations[op].jobId == j && inst.jobs[j].operations[op].operationId == op)
    && |inst.transportTimes| == m
    && (forall i :: 0 <= i < m ==> |inst.transportTimes[i]| == m)
  }

  lemma ReadIsCanonical(t: seq<int>, inst: Instance)
    requires Complete(t) && ReadsAs(t, inst)
    ensures Canonical(inst) && JobIdsAreIndices(inst)
  {
    var n, m := t[0], t[1];
    forall j, op | 0 <= j < |inst.jobs| && 0 <= op < |inst.jobs[j].operations|
      ensures inst.jobs[j].operations[op].jobId == j && inst.jobs[j].operations[op].operationId == op
    {
      JobInside(t, n, m, j);
    }
  }

  /**
    `load_instance_from_file`: a file that cannot be opened is an error naming
    it; otherwise the instance the tokens describe, and the number of tokens
    extracted.
   */
  method LoadInstance(src: Source, filename: string) returns (r: Result<Instance, string>, consumed: nat)
    requires src.Tokens? ==> Complete(src.tokens)
    ensures src.Unopenable? <==> r.Err?
    ensures r.Err? ==> r.error == "Cannot open file: " + filename && consumed == 0
    ensures r.Ok? ==> ReadsAs(src.tokens, r.value) && consumed == Needed(src.tokens[0], src.tokens[1])
  {
    if src.Unopenable? {
      return Err("Cannot open file: " + filename), 0;
    }
    var t := src.tokens;
    var n: nat, m: nat := t[0], t[1];
    var pos := 2;
    var jobs: seq<Job> := [];
    var j := 0;
    while j < n
      invariant 0 <= j <= n && |jobs| == j && pos == JobBase(j, m)
      invariant forall jj :: 0 <= jj < j ==> jobs[jj].jobId == jj && |jobs[jj].operations| == m
      invariant forall jj, op :: 0 <= jj < j && 0 <= op < m && |jobs[jj].operations| == m ==>
        jobs[jj].operations[op] == Operation(jj, op, MachineToken(t, n, m, jj, op), TimeToken(t, n, m, jj, op))
    {
      var job := ReadJob(t, n, m, j);
      jobs := jobs + [job];
      pos := pos + 2 * m;
      j := j + 1;
    }
    var rows: seq<seq<int>> := [];
    var i := 0;
    while i < m
      invariant 0 <= i <= m && |rows| == i && pos == MatrixBase(n, m) + RowStart(i, m)
      invariant forall ii :: 0 <= ii < i ==> |rows[ii]| == m
      invariant forall ii, k :: 0 <= ii < i && 0 <= k < m && |rows[ii]| == m ==>
        rows[ii][k] == MatrixToken(t, n, m, ii, k)
    {
      var row := ReadRow(t, n, m, i);
      rows := rows + [row];
      pos := pos + m;
      i := i + 1;
    }
    r := Ok(Instance(jobs, m, rows));
    consumed := pos;
  }

  /** The two inner loops of one job: `m` machine ids, then `m` processing times. */
  method ReadJob(t: seq<int>, n: nat, m: nat, j: nat) returns (job: Job)
    requires j < n && Needed(n, m) <= |t|
    requires forall op: nat :: op < m ==> MachineToken(t, n, m, j, op) >= 0
    ensures job.jobId == j && |job.operations| == m
    ensures forall op :: 0 <= op < m ==>
      job.operations[op] == Operation(j, op, MachineToken(t, n, m, j, op), TimeToken(t, n, m, j, op))
  {
    JobInside(t, n, m, j);
    var base := JobBase(j, m);
    var ops: seq<Operation> := [];
    var op := 0;
    while op < m
      invariant 0 <= op <= m && |ops| == op
      invariant forall k :: 0 <= k < op ==> ops[k] == Operation(j, k, MachineToken(t, n, m, j, k), 0)
    {
      var machineId: nat := MachineToken(t, n, m, j, op);
      ops := ops + [Operation(j, op, machineId, 0)];
      op := op + 1;
    }
    op := 0;
    while op < m
      invariant 0 <= op <= m && |ops| == m
      invariant forall k :: 0 <= k < op ==> ops[k] == Operation(j, k, MachineToken(t, n, m, j, k), TimeToken(t, n, m, j, k))
      invariant forall k :: op <= k < m ==> ops[k] == Operation(j, k, MachineToken(t, n, m, j, k), 0)
    {
      ops := ops[op := ops[op].(processingTime := t[base + m + op])];
      op := op + 1;
    }
    job := Job(j, ops);
  }

  /** One row of the transport matrix. */
  method ReadRow(t: seq<int>, n: nat, m: nat, i: nat) returns (row: seq<int>)
    requires i < m && Needed(n, m) <= |t|
    ensures |row| == m && forall k :: 0 <= k < m ==> row[k] == MatrixToken(t, n, m, i, k)
  {
    row := [];
    var k := 0;
    while k < m
      invariant 0 <= k <= m && |row| == k
      invariant forall kk :: 0 <= kk < k ==> row[kk] == MatrixToken(t, n, m, i, kk)
    {
      CellBound(i, k, m, m);
      row := row + [t[MatrixBase(n, m) + RowStart(i, m) + k]];
      k := k + 1;
    }
  }

  // ----- the writer: the layout the reader expects -----

  /** A job's machine ids, in operation order. */
  function Machines(job: Job): (xs: seq<int>)
    ensures |xs| == |job.operations|
    ensures forall k :: 0 <= k < |xs| ==> xs[k] == job.operations[k].machineId
  {
    seq(|job.operations|, k requires 0 <= k < |job.operations| => job.operations[k].machineId)
  }

  /** A job's processing times, in operation order. */
  function Times(job: Job): (xs: seq<int>)
    ensures |xs| == |job.operations|
    ensures forall k :: 0 <= k < |xs| ==> xs[k] == job.operations[k].processingTime
  {
    seq(|job.operations|, k requires 0 <= k < |job.operations| => job.operations[k].processingTime)
  }

  /** The job blocks, one after the other. */
  function JobTokens(jobs: seq<Job>): seq<int>
    decreases |jobs|
  {
    if |jobs| == 0 then []
    else JobTokens(jobs[..|jobs| - 1]) + Machines(jobs[|jobs| - 1]) + Times(jobs[|jobs| - 1])
  }

  /** The matrix rows, one after the other. */
  function MatrixTokens(rows: seq<seq<int>>): seq<int>
    decreases |rows|
  {
    if |rows| == 0 then [] else MatrixTokens(rows[..|rows| - 1]) + rows[|rows| - 1]
  }

  /** The tokens of a file the reader turns back into `inst`. */
  function WriteInstance(inst: Instance): seq<int> {
    [|inst.jobs|, inst.numMachines] + JobTokens(inst.jobs) + MatrixTokens(inst.transportTimes)
  }

  /** Every job has `m` operations. */
  predicate Uniform(jobs: seq<Job>, m: nat) {
    forall j :: 0 <= j < |jobs| ==> |jobs[j].operations| == m
  }

  lemma {:induction false} JobTokensLength(jobs: seq<Job>, m: nat)
    requires Uniform(jobs, m)
    ensures |JobTokens(jobs)| == JobBase(|jobs|, m) - 2
    decreases |jobs|
  {
    if |jobs| > 0 {
      JobTokensLength(jobs[..|jobs| - 1], m);
      JobBaseStep(|jobs| - 1, m);
    }
  }

  /** Within the job blocks, job `j`'s machine ids start at `2 j m` and its times `m` later. */
  lemma {:induction false} JobTokenAt(jobs: seq<Job>, m: nat, j: nat, op: nat)
    requires Uniform(jobs, m) && j < |jobs| && op < m
    ensures JobBase(j, m) - 2 + m + op < |JobTokens(jobs)|
    ensures JobTokens(jobs)[JobBase(j, m) - 2 + op] == jobs[j].operations[op].machineId
    ensures JobTokens(jobs)[JobBase(j, m) - 2 + m + op] == jobs[j].operations[op].processingTime
    decreases |jobs|
  {
    var last := |jobs| - 1;
    var front := jobs[..last];
    var head := JobTokens(front);
    JobTokensLength(front, m);
    JobTokensLength(jobs, m);
    var tokens := JobTokens(jobs);
    assert tokens == head + Machines(jobs[last]) + Times(jobs[last]);
    if j < last {
      JobTokenAt(front, m, j, op);
      JobBaseMonotone(j, last, m);
      assert front[j] == jobs[j];
      assert tokens[JobBase(j, m) - 2 + op] == head[JobBase(j, m) - 2 + op];
      assert tokens[JobBase(j, m) - 2 + m + op] == head[JobBase(j, m) - 2 + m + op];
    } else {
      assert JobBase(j, m) - 2 == |head|;
    }
  }

  lemma {:induction false} MatrixTokensLength(rows: seq<seq<int>>, m: nat)
    requires forall i :: 0 <= i < |rows| ==> |rows[i]| == m
    ensures |MatrixTokens(rows)| == RowStart(|rows|, m)
    decreases |rows|
  {
    if |rows| > 0 {
      MatrixTokensLength(rows[..|rows| - 1], m);
    }
  }

  /** Within the matrix block, entry `(i, k)` sits at `i m + k`. */
  lemma {:induction false} MatrixTokenAt(rows: seq<seq<int>>, m: nat, i: nat, k: nat)
    requires forall i :: 0 <= i < |rows| ==> |rows[i]| == m
    requires i < |rows| && k < m
    ensures RowStart(i, m) + k < |MatrixTokens(rows)|
    ensures MatrixTokens(rows)[RowStart(i, m) + k] == rows[i][k]
    decreases |rows|
  {
    var last := |rows| - 1;
    var front := rows[..last];
    var head := MatrixTokens(front);
    MatrixTokensLength(front, m);
    MatrixTokensLength(rows, m);
    var tokens := MatrixTokens(rows);
    assert tokens == head + rows[last];
    if i < last {
      MatrixTokenAt(front, m, i, k);
      assert front[i] == rows[i];
      assert tokens[RowStart(i, m) + k] == head[RowStart(i, m) + k];
    } else {
      assert RowStart(i, m) == |head|;
    }
  }

  /** A position inside a row-major block is a row and a column. */
  lemma {:induction false} RowAndColumn(q: nat, rows: nat, w: nat) returns (i: nat, k: nat)
    requires q < RowStart(rows, w)
    ensures i < rows && k < w && q == RowStart(i, w) + k
    decreases rows
  {
    if q < RowStart(rows - 1, w) {
      i, k := RowAndColumn(q, rows - 1, w);
    } else {
      i, k := rows - 1, q - RowStart(rows - 1, w);
    }
  }

  lemma InMiddle(t: seq<int>, a: seq<int>, b: seq<int>, c: seq<int>, x: nat)
    requires t == a + b + c && x < |b|
    ensures t[|a| + x] == b[x]
  {
  }

  lemma InLast(t: seq<int>, a: seq<int>, b: seq<int>, c: seq<int>, x: nat)
    requires t == a + b + c && x < |c|
    ensures t[|a| + |b| + x] == c[x]
  {
  }

  lemma WrittenLength(inst: Instance)
    requires Canonical(inst)
    ensures WriteInstance(inst) == [|inst.jobs|, inst.numMachines] + JobTokens(inst.jobs) + MatrixTokens(inst.transportTimes)
    ensures |WriteInstance(inst)| == Needed(|inst.jobs|, inst.numMachines)
  {
    JobTokensLength(inst.jobs, inst.numMachines);
    MatrixTokensLength(inst.transportTimes, inst.numMachines);
  }

  lemma WrittenJobToken(inst: Instance, j: nat, op: nat)
    requires Canonical(inst) && j < |inst.jobs| && op < inst.numMachines
    ensures |WriteInstance(inst)| == Needed(|inst.jobs|, inst.numMachines)
    ensures MachineToken(WriteInstance(inst), |inst.jobs|, inst.numMachines, j, op) == inst.jobs[j].operations[op].machineId
    ensures TimeToken(WriteInstance(inst), |inst.jobs|, inst.numMachines, j, op) == inst.jobs[j].operations[op].processingTime
  {
    var n, m := |inst.jobs|, inst.numMachines;
    WrittenLength(inst);
    JobTokenAt(inst.jobs, m, j, op);
    var x := JobBase(j, m) - 2;
    InMiddle(WriteInstance(inst), [n, m], JobTokens(inst.jobs), MatrixTokens(inst.transportTimes), x + op);
    InMiddle(WriteInstance(inst), [n, m], JobTokens(inst.jobs), MatrixTokens(inst.transportTimes), x + m + op);
  }

  lemma WrittenMatrixToken(inst: Instance, i: nat, k: nat)
    requires Canonical(inst) && i < inst.numMachines && k < inst.numMachines
    ensures |WriteInstance(inst)| == Needed(|inst.jobs|, inst.numMachines)
    ensures MatrixToken(WriteInstance(inst), |inst.jobs|, inst.numMachines, i, k) == inst.transportTimes[i][k]
  {
    var n, m := |inst.jobs|, inst.numMachines;
    WrittenLength(inst);
    JobTokensLength(inst.jobs, m);
    MatrixTokenAt(inst.transportTimes, m, i, k);
    InLast(WriteInstance(inst), [n, m], JobTokens(inst.jobs), MatrixTokens(inst.transportTimes), RowStart(i, m) + k);
  }

  /** Writing a reader-shaped instance gives a file that reads back as that instance. */
  lemma WriteThenRead(inst: Instance)
    requires Canonical(inst)
    ensures |WriteInstance(inst)| == Needed(|inst.jobs|, inst.numMachines)
    ensures Complete(WriteInstance(inst)) && ReadsAs(WriteInstance(inst), inst)
  {
    var n, m := |inst.jobs|, inst.numMachines;
    var t := WriteInstance(inst);
    WrittenLength(inst);
    forall j, op | 0 <= j < n && 0 <= op < m
      ensures MachineToken(t, n, m, j, op) == inst.jobs[j].operations[op].machineId
      ensures TimeToken(t, n, m, j, op) == inst.jobs[j].operations[op].processingTime
    {
      WrittenJobToken(inst, j, op);
    }
    forall i, k | 0 <= i < m && 0 <= k < m
      ensures MatrixToken(t, n, m, i, k) == inst.transportTimes[i][k]
    {
      WrittenMatrixToken(inst, i, k);
    }
  }

  /**
    Two files that read as the same instance agree on every token the reader
    consumes: each such token is a count, a machine id, a time or a matrix cell.
   */
  lemma SameToken(t: seq<int>, w: seq<int>, inst: Instance, p: nat)
    requires Complete(t) && ReadsAs(t, inst) && Complete(w) && ReadsAs(w, inst)
    requires p < Needed(t[0], t[1])
    ensures t[p] == w[p]
  {
    var n, m := t[0], t[1];
    if p >= MatrixBase(n, m) {
      var i, k := RowAndColumn(p - MatrixBase(n, m), m, m);
      assert t[p] == MatrixToken(t, n, m, i, k);
      assert w[p] == MatrixToken(w, n, m, i, k);
    } else if p >= 2 {
      var j, r := RowAndColumn(p - 2, n, 2 * m);
      if r < m {
        assert t[p] == MachineToken(t, n, m, j, r);
        assert w[p] == MachineToken(w, n, m, j, r);
      } else {
        assert t[p] == TimeToken(t, n, m, j, r - m);
        assert w[p] == TimeToken(w, n, m, j, r - m);
      }
    }
  }

  /** Reading a file and writing the instance back reproduces the tokens the reader consumed. */
  lemma ReadThenWrite(t: seq<int>, inst: Instance)
    requires Complete(t) && ReadsAs(t, inst)
    ensures WriteInstance(inst) == t[..Needed(t[0], t[1])]
  {
    ReadIsCanonical(t, inst);
    WriteThenRead(inst);
    var w := WriteInstance(inst);
    assert |w| == Needed(t[0], t[1]);
    forall p | 0 <= p < Needed(t[0], t[1])
      ensures w[p] == t[p]
    {
      SameToken(t, w, inst, p);
    }
  }
}
