/**
  The schedule exporters of gui/utils/export.py: the rows `export_to_csv`
  hands to the CSV writer and the record `export_to_json` hands to the JSON
  writer. Paths, directories and the writing itself are not modelled.

  Start times and processing times are integers on the C++ side; the CSV
  prints them with two decimals and the JSON converts them to floats, which
  is exact for the integers a schedule holds, so both are modelled as `int`.
 */
module Export {
  import opened Wrappers
  import opened Core
  import opened Text
  import Gantt

  /** One entry of the order as both exports see it. */
  datatype Entry = Entry(job: nat, op: nat, machine: nat, start: int, duration: int)

  function EndOf(e: Entry): int {
    e.start + e.duration
  }

  /** The entries of a solution, in order; both exports iterate over this. */
  function Entries(inst: Instance, sol: Solution): (es: seq<Entry>)
    requires ValidSequence(inst, sol.operationSequence)
    requires |sol.startTimes| >= |sol.operationSequence|
    ensures |es| == |sol.operationSequence|
    ensures forall i :: 0 <= i < |es| ==>
      var r := sol.operationSequence[i];
      es[i] == Entry(r.job, r.op, MachineOf(inst, r), sol.startTimes[i], ProcessingTime(inst, r))
  {
    var s := sol.operationSequence;
    seq(|s|, i requires 0 <= i < |s| =>
      Entry(s[i].job, s[i].op, MachineOf(inst, s[i]), sol.startTimes[i], ProcessingTime(inst, s[i])))
  }

  // ----- CSV -----

  const CsvHeader: seq<string> := ["Job", "Operation", "Machine", "Start Time", "Duration", "End Time"]

  /** `f'{x:.2f}'` of an integer. */
  function TwoDecimals(x: int): string {
    IntToString(x) + ".00"
  }

  /** Reads a two-decimal rendering of an integer back. */
  function ParseTwoDecimals(s: string): int {
    if |s| >= 3 then ParseInt(s[..|s| - 3]) else 0
  }

  lemma TwoDecimalsRoundTrip(x: int)
    ensures ParseTwoDecimals(TwoDecimals(x)) == x
  {
    assert TwoDecimals(x)[..|TwoDecimals(x)| - 3] == IntToString(x);
    ParseIntToString(x);
  }

  /** `J{job}`, `O{op}`, `M{machine}`, then start, duration and end with two decimals. */
  function CsvRow(e: Entry): (cells: seq<string>)
    ensures |cells| == |CsvHeader|
  {
    ["J" + NatToString(e.job), "O" + NatToString(e.op), "M" + NatToString(e.machine),
     TwoDecimals(e.start), TwoDecimals(e.duration), TwoDecimals(EndOf(e))]
  }

  /** The rows `export_to_csv` writes: the header, then one row per entry of the order. */
  function CsvRows(inst: Instance, sol: Solution): (rows: seq<seq<string>>)
    requires ValidSequence(inst, sol.operationSequence)
    requires |sol.startTimes| >= |sol.operationSequence|
    ensures |rows| == |sol.operationSequence| + 1 && rows[0] == CsvHeader
    ensures forall i :: 0 <= i < |sol.operationSequence| ==> rows[i + 1] == CsvRow(Entries(inst, sol)[i])
  {
    var es := Entries(inst, sol);
    [CsvHeader] + seq(|es|, i requires 0 <= i < |es| => CsvRow(es[i]))
  }

  /** A row as the CSV writer prints it: cells joined by commas, none of them needing quotes. */
  function CsvLine(cells: seq<string>): string {
    Join(cells, ',')
  }

  /** Reads a data row back: three tagged identifiers and three times, the last the sum of the two before it. */
  function ParseCsvRow(line: string): Option<Entry> {
    var cells := Split(line, ',');
    if |cells| != 6 || exists k :: 0 <= k < 3 && |cells[k]| == 0 then None
    else
      var start, duration, end := ParseTwoDecimals(cells[3]), ParseTwoDecimals(cells[4]), ParseTwoDecimals(cells[5]);
      if end != start + duration then None
      else Some(Entry(ParseNat(cells[0][1..]), ParseNat(cells[1][1..]), ParseNat(cells[2][1..]), start, duration))
  }

  /** A cell is plain: no separator, quote or line break, so the writer prints it as it is. */
  predicate Plain(cell: string) {
    ',' !in cell && '"' !in cell && '\r' !in cell && '\n' !in cell
  }

  lemma TaggedPlain(tag: char, n: nat)
    requires tag !in {',', '"', '\r', '\n'}
    ensures Plain([tag] + NatToString(n)) && |[tag] + NatToString(n)| > 0
  {
    var s := NatToString(n);
    assert forall k :: 0 <= k < |s| ==> IsDigit(s[k]);
  }

  lemma TwoDecimalsPlain(x: int)
    ensures Plain(TwoDecimals(x)) && |TwoDecimals(x)| > 0
  {
    var s := IntToString(x);
    assert forall k :: 0 <= k < |s| ==> s[k] == '-' || IsDigit(s[k]);
  }

  /** Every cell of a data row is plain. */
  lemma CsvRowPlain(e: Entry)
    ensures forall k :: 0 <= k < |CsvRow(e)| ==> Plain(CsvRow(e)[k]) && |CsvRow(e)[k]| > 0
  {
    TaggedPlain('J', e.job);
    TaggedPlain('O', e.op);
    TaggedPlain('M', e.machine);
    TwoDecimalsPlain(e.start);
    TwoDecimalsPlain(e.duration);
    TwoDecimalsPlain(EndOf(e));
  }

  /** A printed data row reads back as the entry it was written from. */
  lemma CsvRowRoundTrip(e: Entry)
    ensures ParseCsvRow(CsvLine(CsvRow(e))) == Some(e)
  {
    var cells := CsvRow(e);
    CsvRowPlain(e);
    SplitJoin(cells, ',');
    assert Split(CsvLine(cells), ',') == cells;
    assert cells[0][1..] == NatToString(e.job);
    assert cells[1][1..] == NatToString(e.op);
    assert cells[2][1..] == NatToString(e.machine);
    ParseNatToString(e.job);
    ParseNatToString(e.op);
    ParseNatToString(e.machine);
    TwoDecimalsRoundTrip(e.start);
    TwoDecimalsRoundTrip(e.duration);
    TwoDecimalsRoundTrip(EndOf(e));
  }

  // ----- JSON -----

  /** One element of `operations`. */
  datatype JsonOperation = JsonOperation(jobId: nat, operationId: nat, machineId: nat,
                                         startTime: int, duration: int, endTime: int)

  /** The object `export_to_json` dumps. */
  datatype JsonSchedule = JsonSchedule(makespan: int, jobs: nat, machines: nat, operations: seq<JsonOperation>)

  function JsonOperationOf(e: Entry): JsonOperation {
    JsonOperation(e.job, e.op, e.machine, e.start, e.duration, EndOf(e))
  }

  /** Python's `max` over a non-empty list of ends. */
  function MaxEnd(es: seq<Entry>): (m: int)
    requires |es| > 0
    ensures forall i :: 0 <= i < |es| ==> EndOf(es[i]) <= m
    ensures exists i :: 0 <= i < |es| && EndOf(es[i]) == m
    decreases |es|
  {
    if |es| == 1 then EndOf(es[0])
    else
      var rest := MaxEnd(es[1..]);
      assert forall i :: 1 <= i < |es| ==> es[i] == es[1..][i - 1];
      if EndOf(es[0]) >= rest then EndOf(es[0]) else rest
  }

  /** The error `max` raises on an empty list. */
  const EmptyMax := "max() arg is an empty sequence"

  /** `export_to_json`: fails on an empty order, otherwise the makespan, the sizes and one record per entry. */
  function ExportJson(inst: Instance, sol: Solution): (r: Result<JsonSchedule, string>)
    requires ValidSequence(inst, sol.operationSequence)
    requires |sol.startTimes| >= |sol.operationSequence|
    ensures |sol.operationSequence| == 0 <==> r.Err?
    ensures r.Err? ==> r.error == EmptyMax
    ensures r.Ok? ==>
      && r.value.jobs == |inst.jobs| && r.value.machines == inst.numMachines
      && |r.value.operations| == |sol.operationSequence|
      && (forall i :: 0 <= i < |r.value.operations| ==>
            r.value.operations[i].endTime == r.value.operations[i].startTime + r.value.operations[i].duration)
  {
    var es := Entries(inst, sol);
    if |es| == 0 then Err(EmptyMax)
    else Ok(JsonSchedule(MaxEnd(es), |inst.jobs|, inst.numMachines,
                         seq(|es|, i requires 0 <= i < |es| => JsonOperationOf(es[i]))))
  }

  /** The JSON makespan is the latest end time of its own operations. */
  lemma JsonMakespanIsLatestEnd(inst: Instance, sol: Solution)
    requires ValidSequence(inst, sol.operationSequence)
    requires |sol.startTimes| >= |sol.operationSequence|
    ensures var r := ExportJson(inst, sol);
      r.Ok? ==>
        && (forall i :: 0 <= i < |r.value.operations| ==> r.value.operations[i].endTime <= r.value.makespan)
        && (exists i :: 0 <= i < |r.value.operations| && r.value.operations[i].endTime == r.value.makespan)
  {
    var r := ExportJson(inst, sol);
    if r.Ok? {
      var es := Entries(inst, sol);
      var k :| 0 <= k < |es| && EndOf(es[k]) == MaxEnd(es);
      assert r.value.operations[k].endTime == r.value.makespan;
    }
  }

  /** For a non-empty order the JSON makespan is the one the chart shows. */
  lemma JsonMatchesChart(inst: Instance, sol: Solution, cache: Gantt.ColorCache)
    requires ValidSequence(inst, sol.operationSequence)
    requires |sol.startTimes| >= |sol.operationSequence|
    requires Gantt.Colored(sol.operationSequence, cache)
    requires |sol.operationSequence| > 0
    ensures ExportJson(inst, sol).Ok?
    ensures ExportJson(inst, sol).value.makespan == Gantt.ChartMakespan(Gantt.PrepareData(inst, sol, cache))
  {
    var es := Entries(inst, sol);
    var bars := Gantt.PrepareData(inst, sol, cache);
    var m, c := MaxEnd(es), Gantt.ChartMakespan(bars);
    assert forall i :: 0 <= i < |es| ==> EndOf(es[i]) == Gantt.End(bars[i]);
    var k :| 0 <= k < |es| && EndOf(es[k]) == m;
    var l :| 0 <= l < |bars| && Gantt.End(bars[l]) == c;
    assert m <= c && c <= m;
  }

  /** Row `i + 1` of the CSV reads back as operation `i` of the JSON: the two files describe the same entries. */
  lemma CsvMatchesJson(inst: Instance, sol: Solution, i: nat)
    requires ValidSequence(inst, sol.operationSequence)
    requires |sol.startTimes| >= |sol.operationSequence|
    requires i < |sol.operationSequence|
    ensures var e := ParseCsvRow(CsvLine(CsvRows(inst, sol)[i + 1]));
      && e.Some?
      && JsonOperationOf(e.value) == ExportJson(inst, sol).value.operations[i]
  {
    CsvRowRoundTrip(Entries(inst, sol)[i]);
  }
}
