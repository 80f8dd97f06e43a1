/**
  The data side of the Gantt chart widget (gui/widgets/gantt.py): the bar
  records built from a solution, the chart's makespan, the per-job colour
  cache, the label policy, the axis ticks and limits, and the widget's
  figure/canvas/cache state across draws and clears.

  Drawing itself is matplotlib's and is not modelled; a colour is kept as the
  colormap, job and denominator it is looked up with. Axis limits and label
  positions are Python floats, modelled as exact reals.
 */
module Gantt {
  import opened Wrappers
  import opened Core
  import opened Decoder
  import opened Text

  // ----- colours -----

  /** The two colormaps: `tab20` for at most 20 jobs, `hsv` otherwise. */
  datatype ColorMap = Tab20 | Hsv

  /** `cmap(job_id / max(n, 1))`, kept symbolic. */
  datatype Color = Color(colormap: ColorMap, jobId: nat, denominator: nat)

  type ColorCache = map<nat, Color>

  /** The colour job `jobId` gets in a chart of `jobCount` jobs. */
  function JobColor(jobCount: nat, jobId: nat): Color {
    Color(if jobCount <= 20 then Tab20 else Hsv, jobId, if jobCount >= 1 then jobCount else 1)
  }

  /** The cache holds exactly the keys `0 .. |cache| - 1`, each with its job's colour. */
  ghost predicate CacheFresh(cache: ColorCache) {
    forall j: nat :: j in cache <==> j < |cache|
  }

  /** The colours are those of a chart of `|cache|` jobs. */
  predicate CacheColors(cache: ColorCache) {
    forall j :: j in cache ==> cache[j] == JobColor(|cache|, j)
  }

  /** The job ids `0 .. n - 1`. */
  function JobIds(n: nat): (ids: set<nat>)
    ensures forall j: nat :: j in ids <==> j < n
    ensures |ids| == n
    decreases n
  {
    if n == 0 then {} else JobIds(n - 1) + {n - 1}
  }

  /** A cache built for `n` jobs. */
  function BuildCache(n: nat): (cache: ColorCache)
    ensures cache.Keys == JobIds(n)
    ensures forall j :: j in cache ==> cache[j] == JobColor(n, j)
  {
    map j | j in JobIds(n) :: JobColor(n, j)
  }

  /** `_update_color_cache`: rebuild only when the size differs from the job count. */
  function UpdateColorCache(cache: ColorCache, jobCount: nat): (r: ColorCache)
    ensures |cache| == jobCount ==> r == cache
  {
    if |cache| != jobCount then BuildCache(jobCount) else cache
  }

  /**
    Starting from a cache the widget itself built, an update leaves exactly
    the keys `0 .. n - 1` with the colours of an `n`-job chart, so every job
    id of the instance finds its colour.
   */
  lemma UpdateCovers(cache: ColorCache, n: nat)
    requires CacheFresh(cache) && CacheColors(cache)
    ensures var r := UpdateColorCache(cache, n);
      && |r| == n && CacheFresh(r) && CacheColors(r)
      && (forall j: nat :: j in r <==> j < n)
  {
  }

  /** Updating twice for the same job count is updating once. */
  lemma UpdateIdempotent(cache: ColorCache, n: nat)
    ensures UpdateColorCache(UpdateColorCache(cache, n), n) == UpdateColorCache(cache, n)
  {
  }

  // ----- bar records -----

  /** One record of `_prepare_data`. */
  datatype Bar = Bar(machine: nat, start: int, duration: int, jobId: nat, opId: nat, color: Color)

  function End(b: Bar): int {
    b.start + b.duration
  }

  /** Every job of the order has a colour in the cache. */
  predicate Colored(s: seq<OpRef>, cache: ColorCache) {
    forall i :: 0 <= i < |s| ==> s[i].job in cache
  }

  /** `_prepare_data`: one record per entry of the order, in order. */
  function PrepareData(inst: Instance, sol: Solution, cache: ColorCache): (bars: seq<Bar>)
    requires ValidSequence(inst, sol.operationSequence)
    requires |sol.startTimes| >= |sol.operationSequence|
    requires Colored(sol.operationSequence, cache)
    ensures |bars| == |sol.operationSequence|
    ensures forall i :: 0 <= i < |bars| ==>
      var r := sol.operationSequence[i];
      bars[i] == Bar(MachineOf(inst, r), sol.startTimes[i], ProcessingTime(inst, r), r.job, r.op, cache[r.job])
  {
    var s := sol.operationSequence;
    seq(|s|, i requires 0 <= i < |s| =>
      Bar(MachineOf(inst, s[i]), sol.startTimes[i], ProcessingTime(inst, s[i]), s[i].job, s[i].op, cache[s[i].job]))
  }

  /** `_calculate_makespan`: the latest end of a record, or 0 when there are none. */
  function ChartMakespan(bars: seq<Bar>): (m: int)
    ensures |bars| == 0 ==> m == 0
    ensures forall i :: 0 <= i < |bars| ==> End(bars[i]) <= m
    ensures |bars| > 0 ==> exists i :: 0 <= i < |bars| && End(bars[i]) == m
    decreases |bars|
  {
    if |bars| == 0 then 0
    else if |bars| == 1 then End(bars[0])
    else
      var rest := ChartMakespan(bars[1..]);
      assert forall i :: 1 <= i < |bars| ==> bars[i] == bars[1..][i - 1];
      if End(bars[0]) >= rest then End(bars[0]) else rest
  }

  /**
    On a decoded solution with non-negative processing times the chart shows
    the makespan the decoder computed.
   */
  lemma ChartMatchesDecoder(inst: Instance, sol: Solution, cache: ColorCache)
    requires ValidInstance(inst) && NonNegativeTimes(inst)
    requires ValidSequence(inst, sol.operationSequence) && Colored(sol.operationSequence, cache)
    requires IsDecoded(inst, sol.operationSequence, sol.startTimes)
    ensures ChartMakespan(PrepareData(inst, sol, cache)) == MaxFinish(inst, sol.operationSequence, sol.startTimes)
  {
    var s, starts := sol.operationSequence, sol.startTimes;
    var bars := PrepareData(inst, sol, cache);
    var m := ChartMakespan(bars);
    DecodedStartsNonNegative(inst, s, starts, |s|);
    assert forall i :: 0 <= i < |s| ==> End(bars[i]) == FinishOf(inst, s[i], starts[i]);
    if |s| > 0 {
      assert End(bars[0]) >= 0;
    }
    assert IsMakespan(inst, s, starts, m);
    MakespanUnique(inst, s, starts, m, MaxFinish(inst, s, starts));
  }

  // ----- labels -----

  /** The label policy: font size and shortest labelled duration, by number of records. */
  datatype Tier = Tier(fontSize: nat, minDuration: real)

  function LabelTier(count: nat): (t: Tier)
    ensures t.fontSize in {5, 6, 8} && t.minDuration in {0.5, 1.0}
  {
    if count <= 50 then Tier(8, 0.5)
    else if count <= 100 then Tier(6, 0.5)
    else Tier(5, 1.0)
  }

  /** More records never give bigger labels or label shorter bars. */
  lemma LabelTierMonotone(a: nat, b: nat)
    requires a <= b
    ensures LabelTier(b).fontSize <= LabelTier(a).fontSize
    ensures LabelTier(b).minDuration >= LabelTier(a).minDuration
  {
  }

  /** A text label on the chart: its centre and its text. */
  datatype Label = Label(x: real, y: nat, text: string)

  predicate Labelled(b: Bar, minDuration: real) {
    b.duration as real >= minDuration
  }

  /** "J{job_id}" centred on the bar. */
  function LabelOf(b: Bar): Label {
    Label(b.start as real + b.duration as real / 2.0, b.machine, "J" + NatToString(b.jobId))
  }

  /** The positions of the records that get a label, in order. */
  function LabelledIndices(bars: seq<Bar>, minDuration: real): (idx: seq<nat>)
    ensures forall k :: 0 <= k < |idx| ==> idx[k] < |bars|
    ensures forall k, l :: 0 <= k < l < |idx| ==> idx[k] < idx[l]
    ensures forall i :: 0 <= i < |bars| ==> (i in idx <==> Labelled(bars[i], minDuration))
    decreases |bars|
  {
    if |bars| == 0 then []
    else
      var n := |bars| - 1;
      var earlier := LabelledIndices(bars[..n], minDuration);
      assert forall i :: 0 <= i < n ==> bars[..n][i] == bars[i];
      if Labelled(bars[n], minDuration) then earlier + [n] else earlier
  }

  /** `_render_labels`: one label per record whose duration reaches the tier's minimum, in record order. */
  function Labels(bars: seq<Bar>, count: nat): (labels: seq<Label>)
    ensures var idx := LabelledIndices(bars, LabelTier(count).minDuration);
      |labels| == |idx| && forall k :: 0 <= k < |labels| ==> labels[k] == LabelOf(bars[idx[k]])
  {
    var idx := LabelledIndices(bars, LabelTier(count).minDuration);
    seq(|idx|, k requires 0 <= k < |idx| => LabelOf(bars[idx[k]]))
  }

  /** A bar of length at least 1 is always labelled; under 0.5 never. */
  lemma LabelThresholds(bars: seq<Bar>, count: nat, i: nat)
    requires i < |bars|
    ensures var idx := LabelledIndices(bars, LabelTier(count).minDuration);
      && (bars[i].duration >= 1 ==> i in idx)
      && (bars[i].duration <= 0 ==> i !in idx)
  {
  }

  // ----- axes -----

  /** A y-axis tick: its position and its text. */
  datatype Tick = Tick(position: nat, text: string)

  /** One tick "M{i}" per machine, used or not. */
  function YTicks(numMachines: nat): (ticks: seq<Tick>)
    ensures |ticks| == numMachines
    ensures forall i :: 0 <= i < numMachines ==> ticks[i].position == i
  {
    seq(numMachines, i requires 0 <= i < numMachines => Tick(i, "M" + NatToString(i)))
  }

  /** Distinct machines get distinct tick texts, and each text names its machine. */
  lemma TicksNameMachines(numMachines: nat, i: nat, k: nat)
    requires i < numMachines && k < numMachines
    ensures ParseNat(YTicks(numMachines)[i].text[1..]) == i
    ensures i != k ==> YTicks(numMachines)[i].text != YTicks(numMachines)[k].text
  {
    var ticks := YTicks(numMachines);
    assert ticks[i].text[1..] == NatToString(i);
    assert ticks[k].text[1..] == NatToString(k);
    ParseNatToString(i);
    ParseNatToString(k);
  }

  datatype Limits = Limits(low: real, high: real)

  function XLimits(makespan: int): Limits {
    Limits(-2.0, makespan as real * 1.08)
  }

  function YLimits(numMachines: nat): Limits {
    Limits(-0.7, numMachines as real - 0.3)
  }

  /**
    Every bar of a decoded solution with non-negative times lies inside the
    axis limits: horizontally within `(-2, makespan * 1.08)` and vertically
    on a row strictly between the y-limits.
   */
  lemma BarsInsideLimits(inst: Instance, sol: Solution, cache: ColorCache, i: nat)
    requires ValidInstance(inst) && NonNegativeTimes(inst)
    requires ValidSequence(inst, sol.operationSequence) && Colored(sol.operationSequence, cache)
    requires IsDecoded(inst, sol.operationSequence, sol.startTimes)
    requires i < |sol.operationSequence|
    ensures var bars := PrepareData(inst, sol, cache);
      var x := XLimits(ChartMakespan(bars));
      var y := YLimits(inst.numMachines);
      && x.low < bars[i].start as real
      && End(bars[i]) as real <= x.high
      && y.low < bars[i].machine as real < y.high
  {
    var s, starts := sol.operationSequence, sol.startTimes;
    var bars := PrepareData(inst, sol, cache);
    DecodedStartsNonNegative(inst, s, starts, |s|);
    assert starts[i] >= 0 && bars[i].duration >= 0;
    var m := ChartMakespan(bars);
    assert 0 <= End(bars[i]) <= m;
    assert m as real <= m as real * 1.08;
  }

  // ----- the widget's state -----

  /** A finished chart: bars, makespan, labels and axes. */
  datatype Chart = Chart(bars: seq<Bar>, makespan: int, fontSize: nat, labels: seq<Label>,
                         yTicks: seq<Tick>, xLimits: Limits, yLimits: Limits)

  /** What the figure shows: the welcome text or a chart. */
  datatype Figure = Welcome | Gantt(chart: Chart)

  /** The widget's `fig` (None or a figure), whether `canvas` is set, and `_color_cache`. */
  datatype Frame = Frame(fig: Option<Figure>, canvas: bool, cache: ColorCache)

  /** `_clear_canvas`: drops the canvas and the figure; the cache stays. */
  function ClearCanvas(f: Frame): (r: Frame)
    ensures r.fig.None? && !r.canvas && r.cache == f.cache
  {
    Frame(None, false, f.cache)
  }

  /** `_show_placeholder`: the welcome figure on a fresh canvas. */
  function ShowPlaceholder(f: Frame): (r: Frame)
    ensures r.fig == Some(Welcome) && r.canvas && r.cache == f.cache
  {
    var cleared := ClearCanvas(f);
    Frame(Some(Welcome), true, cleared.cache)
  }

  /** The widget as `__init__` leaves it. */
  const Initial: Frame := ShowPlaceholder(Frame(None, false, map[]))

  /** `clear`: empty the cache and go back to the welcome figure. */
  function Clear(f: Frame): (r: Frame)
    ensures r.fig == Some(Welcome) && r.canvas && r.cache == map[]
  {
    var cleared := ClearCanvas(f);
    ShowPlaceholder(Frame(cleared.fig, cleared.canvas, map[]))
  }

  /** The chart `draw_gantt` builds for a cache already updated for the instance. */
  function BuildChart(inst: Instance, sol: Solution, cache: ColorCache): Chart
    requires ValidSequence(inst, sol.operationSequence)
    requires |sol.startTimes| >= |sol.operationSequence|
    requires Colored(sol.operationSequence, cache)
  {
    var bars := PrepareData(inst, sol, cache);
    var makespan := ChartMakespan(bars);
    Chart(bars, makespan, LabelTier(|bars|).fontSize, Labels(bars, |bars|),
          YTicks(inst.numMachines), XLimits(makespan), YLimits(inst.numMachines))
  }

  /** The cache invariant every reachable frame keeps. */
  ghost predicate FrameOk(f: Frame) {
    CacheFresh(f.cache) && CacheColors(f.cache)
  }

  /** Job ids of the order are job positions of the instance. */
  predicate JobsInRange(inst: Instance, s: seq<OpRef>) {
    forall i :: 0 <= i < |s| ==> s[i].job < |inst.jobs|
  }

  /**
    `draw_gantt`: update the cache for the instance's job count, then show the
    chart of the solution on a fresh canvas.
   */
  function DrawGantt(f: Frame, inst: Instance, sol: Solution): (r: Frame)
    requires FrameOk(f)
    requires ValidSequence(inst, sol.operationSequence)
    requires |sol.startTimes| >= |sol.operationSequence|
    ensures FrameOk(r) && r.canvas && r.fig.Some? && r.fig.value.Gantt?
    ensures r.cache == UpdateColorCache(f.cache, |inst.jobs|)
    ensures var chart := r.fig.value.chart;
      && |chart.bars| == |sol.operationSequence|
      && (forall i :: 0 <= i < |chart.bars| ==> chart.bars[i].color == JobColor(|inst.jobs|, chart.bars[i].jobId))
      && |chart.yTicks| == inst.numMachines
  {
    var cleared := ClearCanvas(f);
    var cache := UpdateColorCache(cleared.cache, |inst.jobs|);
    UpdateCovers(cleared.cache, |inst.jobs|);
    assert Colored(sol.operationSequence, cache);
    Frame(Some(Gantt(BuildChart(inst, sol, cache))), true, cache)
  }

  /** The widget starts, and stays after `clear`, with the cache invariant. */
  lemma FrameOkKept(f: Frame)
    ensures FrameOk(Initial)
    ensures FrameOk(Clear(f))
    ensures FrameOk(f) ==> FrameOk(ClearCanvas(f)) && FrameOk(ShowPlaceholder(f))
  {
  }

  /** After `clear`, the next draw rebuilds the cache whenever the instance has jobs. */
  lemma DrawAfterClearRebuilds(f: Frame, inst: Instance, sol: Solution)
    requires ValidSequence(inst, sol.operationSequence)
    requires |sol.startTimes| >= |sol.operationSequence|
    requires |inst.jobs| > 0
    ensures FrameOk(Clear(f))
    ensures DrawGantt(Clear(f), inst, sol).cache == BuildCache(|inst.jobs|)
  {
  }
}
