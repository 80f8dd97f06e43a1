# Job-shop scheduling core, modelled in Dafny

The system schedules a job-shop with transport times. An instance has jobs. Each job is an ordered list of operations, and each operation has a machine and a processing time. A machine-to-machine transport matrix delays every operation after the first of its job by the transport time from the machine of the job's preceding operation to its own machine; the diagonal entry applies when both are on the same machine. A solution is an operation order: a sequence of (job, operation) pairs. The decoder `calculate_makespan` turns the order into start times and a makespan.

Four producers of orders are modelled:

- the greedy constructor;
- the genetic algorithm: random permutations, tournament selection, order crossover, swap mutation and the generational loop with its best-so-far record;
- the A* solver: state keys, the admissible lower bound, the priority order, successor generation, duplicate pruning and path reconstruction;
- the whitespace-token instance reader.

On the GUI side, three Python pieces are modelled:

- the Gantt widget's data: bar records, chart makespan, colour cache, label policy, axes and widget state;
- the CSV/JSON exporters;
- the sidebar's checks of the genetic-algorithm parameters.

The files follow the program's structure:

| file | module | models |
|---|---|---|
| `wrappers.dfy` | `Wrappers` | `Option`, `Result` |
| `text.dfy` | `Text` | decimal rendering/parsing, joining and splitting on a separator |
| `core.dfy` | `Core` | instance, operation reference, solution, transport rule, counting helpers |
| `solution.dfy` | `Decoder` | `calculate_makespan` and its reference definition (`IsDecoded`, `IsMakespan`) |
| `greedy.dfy` | `Greedy` | `greedy_schedule` |
| `genetic.dfy` | `Genetic` | `generate_random_solution` … `run_genetic` |
| `exact.dfy` | `Exact` | `solve_exact` and its helpers |
| `file_io.dfy` | `FileIo` | `load_instance` |
| `gantt.dfy` | `Gantt` | the Gantt widget's data side |
| `export.dfy` | `Export` | `export_to_csv`, `export_to_json` |
| `sidebar.dfy` | `Sidebar` | the parameter checks of the sidebar |

Random draws become explicit parameters. Each draw comes with a predicate saying which draws are possible:

- the shuffle's draws: `IsShuffleDraws`;
- the tournament picks: `IsTournamentDraw`;
- the crossover cuts and swap indices: `IsChildDraws`.

A property proved for every admissible draw therefore holds for whatever the generator produces.

The decoder is the reference that the other modules are stated against. `IsDecoded(inst, s, starts)` says that every entry starts at the later of two times:

- the last finish time, among the entries before it, on its machine;
- the finish time of its job's previous entry, plus the transport time from the machine of the job's preceding operation (`op - 1`) to this operation's machine.

The transport time is 0 for operation 0 of a job. It is read from the transport matrix even when both operations use the same machine, so a non-zero diagonal delays them too. `IsMakespan` says the makespan is the maximum of 0 and every finish time. The greedy order, the A* reconstruction, the chart and the JSON makespan are all related back to these two predicates.

## Model

| member | source | states |
|---|---|---|
| Decoder.Decode | src/core/solution.cpp:27-50 | the start times it produces are one per entry and satisfy the decoding rule: each entry starts at the later of its machine's last finish and its job's previous finish plus transport |
| Decoder.LatestFinish | src/core/solution.cpp:52-62 | the loop's result is at least 0 and at least every entry's finish, and it is either 0 or the finish of some entry |
| Decoder.CalculateMakespan | src/core/solution.cpp:6-66 | the order is left as it is; whatever start times the solution held are replaced by one decoded start per entry; the stored makespan and the returned one agree and are the latest finish (0 for an empty order) |
| Decoder.DecodedUnique | src/core/solution.cpp:41-48 | the decoding rule determines the start times: two start vectors that both satisfy it are equal |
| Decoder.DecodedMakespan | src/core/solution.cpp:41-65 | any start times and makespan meeting the decoding and makespan rules are exactly the ones the decoder computes |
| Decoder.DecodeAppend | src/core/solution.cpp:27-50 | decoding one more entry keeps the earlier start times and appends the new entry's earliest start |
| Decoder.MakespanAppend | src/core/solution.cpp:53-62 | the makespan of an extended order is the larger of the old makespan and the new entry's finish |
| Decoder.RecalculateIdempotent | src/core/solution.cpp:6-66 | re-running the decoder on an already decoded solution changes nothing |
| Decoder.MachineReadyCovers | src/core/solution.cpp:46 | with non-negative processing times, an entry's finish is no later than its machine's availability after any longer prefix of the order |
| Decoder.JobReadyCovers | src/core/solution.cpp:47 | with non-negative processing and transport times, an entry's finish is no later than its job's availability after any longer prefix of the order |
| Decoder.NoMachineOverlap | src/core/solution.cpp:41-47 | with non-negative processing times, two entries on the same machine never overlap: the earlier one finishes no later than the later one starts |
| Decoder.JobOrderRespected | src/core/solution.cpp:33-48 | with non-negative processing and transport times, an entry starts no earlier than the finish of every earlier entry of the same job |
| Decoder.DecodedStartsNonNegative | src/core/solution.cpp:20-41 | with non-negative times every decoded start is at least 0 |
| Decoder.DecodedStartBounds | src/core/solution.cpp:41 | each decoded start is at least its machine's last finish and at least its job's previous finish plus transport |
| Greedy.SelectNext | src/greedy/greedy.cpp:26-58 | the scan returns an unfinished job; its next operation's candidate start is reported; it is preferred to every unfinished job's next operation by earlier start, then shorter processing time, then lower job index |
| Greedy.SelectionIsGreedyChoice | src/greedy/greedy.cpp:32-58 | the start the scan computes from its vectors is the decoder's earliest start, so its choice is the greedy choice in decoder terms |
| Greedy.GreedyAppend | src/greedy/greedy.cpp:60-70 | appending the greedy choice to a greedy order in job order gives a valid greedy order that is still in job order |
| Greedy.DispatchStep | src/greedy/greedy.cpp:60-70 | one dispatch keeps the next-operation counters, machine-available and job-finish vectors equal to the counts, machine readiness and job readiness of the extended order |
| Greedy.DispatchComplete | src/greedy/greedy.cpp:25 | when the loop has dispatched as many entries as the instance has operations, every job has all its operations in the order |
| Greedy.GreedySchedule | src/greedy/greedy.cpp:8-76 | the result holds every operation once, each job's operations in sequence, each entry the greedy choice given the entries before it; start times and makespan are the decoder's; an instance without operations gives the empty solution |
| Greedy.JobOrderCoversEachOnce | src/greedy/greedy.cpp:60-70 | an order that keeps each job in sequence and completes every job contains each valid operation exactly once |
| Genetic.EnumerateFirstExact | src/genetic/genetic.cpp:8-12 | enumerating the first k jobs gives exactly their operations, each once, as many as they have |
| Genetic.AllOperationsExact | src/genetic/genetic.cpp:5-12 | the base order holds every valid operation of the instance exactly once and nothing else |
| Genetic.Swap | src/genetic/genetic.cpp:90-93 | exchanges two positions, leaves every other position alone and keeps the multiset |
| Genetic.ShuffleFrom | src/genetic/genetic.cpp:13 | for any admissible draws the shuffle is a permutation of its input |
| Genetic.GenerateRandomSolution | src/genetic/genetic.cpp:5-15 | a random solution is a permutation of all operations, with no start times and makespan 0 |
| Genetic.GeneratePopulation | src/genetic/genetic.cpp:17-24 | one solution per draw, each a permutation of all operations |
| Genetic.Winner | src/genetic/genetic.cpp:29-40 | the winner has the smallest cost among the contenders and is the first contender with that cost |
| Genetic.TournamentSelection | src/genetic/genetic.cpp:26-42 | the selected solution is the picked member with the smallest decoded makespan, the earliest pick on ties |
| Genetic.Rotate | src/genetic/genetic.cpp:72-81 | rotating the second parent keeps its multiset |
| Genetic.Without | src/genetic/genetic.cpp:75-78 | the filler keeps the entries outside the excluded segment with their multiplicities and drops the segment's |
| Genetic.FillerCountAt | src/genetic/genetic.cpp:63-81 | for every operation, its count in the filler plus its count in the copied segment is its count in the first parent |
| Genetic.FillerComplementsSegment | src/genetic/genetic.cpp:63-81 | the filler and the copied segment together are the first parent's multiset, and the filler has the length of the positions left free |
| Genetic.AssembleSegment | src/genetic/genetic.cpp:66-81 | placing the filler after the segment with wrap-around yields a full-length child that holds the segment at its positions |
| Genetic.CrossoverOrder | src/genetic/genetic.cpp:51-83 | the child is a permutation of the first parent and copies its segment between the cuts in place |
| Genetic.CrossoverFillOrder | src/genetic/genetic.cpp:72-81 | the k-th free position after the segment, wrapping round, holds the k-th element of the second parent's rotation not in the segment |
| Genetic.OrderCrossover | src/genetic/genetic.cpp:51-83 | the child solution keeps the first parent's segment and is a permutation of it, with no start times and makespan 0 |
| Genetic.MutateSwap | src/genetic/genetic.cpp:85-94 | orders shorter than 2 are untouched; otherwise exactly the two drawn positions are exchanged; the result is a permutation and start times/makespan are kept |
| Genetic.ArrangementsValid | src/genetic/genetic.cpp:113-116 | a population of permutations of all operations only refers to valid operations |
| Genetic.SelectedParents | src/genetic/genetic.cpp:113-116 | both tournament winners are permutations of all operations and are valid parents for the crossover |
| Genetic.Breed | src/genetic/genetic.cpp:113-121 | every child bred is again a permutation of all operations, with no start times and makespan 0 |
| Genetic.NonIncreasingPairs | src/genetic/genetic.cpp:124-129 | in the trace of best makespans a later entry is never above an earlier one |
| Genetic.RecordCandidate | src/genetic/genetic.cpp:124-129 | a child replaces the best only when its makespan is strictly smaller, and the trace stays non-increasing and ends with the best's makespan |
| Genetic.AppendChild | src/genetic/genetic.cpp:122-129 | adding a child to the next generation keeps it a population of permutations, none of which beats the updated best |
| Genetic.ChildrenBred | src/genetic/genetic.cpp:111-122 | child `c` of a generation is the one bred with the `c`-th draws (two tournament winners crossed over, then possibly swap-mutated), and each child is a permutation of all operations |
| Genetic.ChildrenGrow | src/genetic/genetic.cpp:111-122 | pushing the child bred with the next draws extends the generation built so far by exactly that child |
| Genetic.ChampionIsLeast | src/genetic/genetic.cpp:124-129 | offering candidates to a best-so-far record never raises its makespan, and no offered candidate has a smaller makespan than the final record |
| Genetic.ChampionIsFirstBest | src/genetic/genetic.cpp:124-129 | the final record is either the starting one (when no candidate is strictly better) or the earliest candidate reaching the least makespan, kept under its own makespan, which is then below the start's; a later tie never replaces it |
| Genetic.BestTraceEntries | src/genetic/genetic.cpp:124-129 | entry `i` of the trace is the best makespan once the first `i + 1` candidates have been offered |
| Genetic.ChampionAppend | src/genetic/genetic.cpp:109-132 | offering two runs of candidates one after the other is offering the second run to the record the first one left, and the traces join |
| Genetic.NextGeneration | src/genetic/genetic.cpp:110-131 | the new generation is exactly the children bred with the generation's draws, in order, one per member; the best and the trace are what offering those children in turn to the incoming best yields (a child replaces it only when strictly better); every child is a permutation and none beats the best |
| Genetic.BredStep | src/genetic/genetic.cpp:112-130 | one pass of the inner loop (breed, push, compare) keeps the generation equal to the children of the draws used so far and the best and trace equal to offering them in turn |
| Genetic.Evolve | src/genetic/genetic.cpp:109-132 | replacing the population by its children once per generation keeps its size and keeps every member a permutation of all operations |
| Genetic.AllChildren | src/genetic/genetic.cpp:109-132 | every child bred over all generations is a permutation of all operations |
| Genetic.EvolvedStep | src/genetic/genetic.cpp:109-132 | one generation of the outer loop keeps the population equal to `Evolve` and the best and trace equal to offering every child bred so far, in breeding order, to the starting best |
| Genetic.InitialRecord | src/genetic/genetic.cpp:105-107 | the starting best is the generated population's first member with its decoded start times and its makespan, kept under that makespan |
| Genetic.InitialBest | src/genetic/genetic.cpp:105-107 | the population is the generated one and the best with its makespan is `InitialRecord`: the first member, decoded, starting a one-entry trace |
| Genetic.RunGenerations | src/genetic/genetic.cpp:109-132 | after the loop the population is the last generation bred (`Evolve`), and the best and trace are those of offering every child of every generation, in breeding order, to the starting best; the trace has one entry per child plus the first and never rises above its first entry |
| Genetic.RunGenetic | src/genetic/genetic.cpp:96-134 | the returned best and its makespan are those of offering every child of every generation, in breeding order, to the decoded first member of the generated population; the final population is the last generation bred; the trace starts at the first member's makespan, has one entry per child and never increases; no member of the final population beats the best |
| Exact.StateKeyRoundTrip | src/exact/exact.cpp:24-50 | a state key parses back into the three vectors it was built from |
| Exact.StateKeyInjective | src/exact/exact.cpp:24-50 | different states have different keys |
| Exact.MaxFromZero | src/exact/exact.cpp:64-67 | the maximum of 0 and the values: at least 0, at least each value, and 0 or one of them |
| Exact.LowerBound | src/exact/exact.cpp:59-79 | the heuristic is the largest of 0, every machine's available time and every job's last finish plus remaining processing |
| Exact.HeuristicLb | src/exact/exact.cpp:59-79 | the loop version computes the same bound |
| Exact.LowerBoundUnique | src/exact/exact.cpp:59-79 | the bound is uniquely determined by its defining property |
| Exact.LessIsStrictWeakOrder | src/exact/exact.cpp:99-105 | the queue comparison is irreflexive, asymmetric and transitive; two items are tied exactly when f and g agree |
| Exact.TopMeaning | src/exact/exact.cpp:99-105 | the queue's top is an item with the smallest f and, among those, the largest g |
| Exact.TopIndex | src/exact/exact.cpp:182-184 | the popped item is a top item of the queue |
| Exact.Advance | src/exact/exact.cpp:263-273 | scheduling job j on machine m moves j's counter by one, sets both finish vectors to the finish, lowers j's remaining processing, and changes nothing else |
| Exact.ScheduleJob | src/exact/exact.cpp:237-289 | a finished job gives no successor; otherwise the successor schedules the job's next operation at the later of machine availability and job finish plus transport, with g, f and key as the source computes them |
| Exact.Dispatch | src/exact/exact.cpp:243-289 | the successor of an unfinished job meets the successor description above |
| Exact.StateOfUnique | src/exact/exact.cpp:134-152 | the search state belonging to a partial order is unique |
| Exact.StartFollowsDecoder | src/exact/exact.cpp:248-257 | the start A* gives a job's next operation is the decoder's earliest start after the partial order |
| Exact.StateFollowsDecoder | src/exact/exact.cpp:263-273 | the successor's vectors are the state of the extended partial order |
| Exact.ScheduleFollowsDecoder | src/exact/exact.cpp:237-275 | expanding a state that describes a decoded partial order gives a successor describing the decoded extended order, with g its makespan |
| Exact.SuccessorFollowsDecoder | src/exact/exact.cpp:248-275 | the same for any successor meeting the description |
| Exact.SuccessorHorizon | src/exact/exact.cpp:260 | with non-negative times, g is always the maximum over the machines' available times |
| Exact.ExpandJobGrows | src/exact/exact.cpp:277-301 | handling one job never forgets a recorded state or raises its g, gives every new record the expanded node as parent, and records every pushed item with f >= g >= the parent's g |
| Exact.ExpandFromGrows | src/exact/exact.cpp:237-302 | the same for the whole successor loop |
| Exact.Reconstruct | src/exact/exact.cpp:209-227 | the walk back ends with the goal node's own operation and start time |
| Exact.InitialSearch | src/exact/exact.cpp:127-178 | an instance without operations is solved at once with the empty solution; otherwise the queue holds the root alone with g 0 and a non-negative f |
| Exact.Step | src/exact/exact.cpp:182-303 | an empty queue ends with the empty solution; a goal ends with the popped item's g as makespan; otherwise every queued key stays recorded and at most one item leaves the queue |
| Exact.InitialConsistent | src/exact/exact.cpp:154-178 | the root search is consistent: every recorded node describes a decoded partial order |
| Exact.KnownKeyPruned | src/exact/exact.cpp:277-281 | with no reopenings, a successor whose key is already recorded is always pruned |
| Exact.NewNodeOk | src/exact/exact.cpp:292-299 | a newly recorded node links to its parent by its operation and start time |
| Exact.RecordConsistent | src/exact/exact.cpp:291-301 | recording and pushing a new successor keeps the search consistent |
| Exact.ExpandJobConsistent | src/exact/exact.cpp:237-301 | handling one job keeps the search consistent and only adds entries |
| Exact.ExpandFromConsistent | src/exact/exact.cpp:237-302 | the whole successor loop keeps the search consistent and only adds entries |
| Exact.DescribesStep | src/exact/exact.cpp:248-275 | extending a described path by a successor's operation and start describes the successor |
| Exact.ReconstructDecodes | src/exact/exact.cpp:208-233 | the path rebuilt from any recorded node is a decoded order whose makespan is the node's g |
| Exact.StepSound | src/exact/exact.cpp:182-303 | one iteration keeps the search consistent; a returned solution is valid and decoded, its makespan is right, and it is the empty solution or schedules every operation |
| Exact.ExpandTopConsistent | src/exact/exact.cpp:193-302 | expanding the popped node keeps the search consistent |
| FileIo.LoadInstance | src/io/file_io.cpp:5-48 | a file that cannot be opened gives the source's error message; otherwise the instance read is the one the token stream describes, consuming exactly the header, job and matrix tokens |
| FileIo.ReadJob | src/io/file_io.cpp:18-37 | job j gets id j and m operations, whose machines and times are the j-th block of machine tokens and then time tokens |
| FileIo.ReadRow | src/io/file_io.cpp:40-45 | row i of the transport matrix is the i-th block of m tokens after the jobs |
| FileIo.NeededClosedForm | src/io/file_io.cpp:11-45 | a file holds 2 + 2nm + m² tokens |
| FileIo.ReadsAsUnique | src/io/file_io.cpp:11-45 | a token stream describes at most one instance |
| FileIo.ReadIsCanonical | src/io/file_io.cpp:18-45 | an instance read from tokens has m operations per job, job ids equal to indices and an m×m transport matrix |
| FileIo.WriteThenRead | src/io/file_io.cpp:11-45 | writing an instance of that shape as tokens and reading it back gives the instance |
| FileIo.ReadThenWrite | src/io/file_io.cpp:11-45 | writing the instance read gives back exactly the tokens that were consumed |
| Gantt.BuildCache | gui/widgets/gantt.py:123-126 | the cache for n jobs has keys 0 to n-1, each with its job's colour from the colormap chosen for n jobs |
| Gantt.UpdateColorCache | gui/widgets/gantt.py:120-126 | a cache whose size already matches the job count is kept |
| Gantt.UpdateCovers | gui/widgets/gantt.py:120-126 | starting from a cache the widget built, an update leaves exactly the keys 0 to n-1 with the colours of an n-job chart |
| Gantt.UpdateIdempotent | gui/widgets/gantt.py:122-126 | updating twice for the same job count is updating once |
| Gantt.PrepareData | gui/widgets/gantt.py:128-146 | one bar per entry, in order, with its machine, start, processing time, ids and job colour |
| Gantt.ChartMakespan | gui/widgets/gantt.py:148-150 | the latest end of a bar, or 0 without bars |
| Gantt.ChartMatchesDecoder | gui/widgets/gantt.py:148-150 | on a decoded solution the chart's makespan is the decoder's |
| Gantt.LabelTier | gui/widgets/gantt.py:168-176 | the font size is 8, 6 or 5 and the minimum labelled duration 0.5 or 1 |
| Gantt.LabelTierMonotone | gui/widgets/gantt.py:168-176 | more operations never mean a larger font or a smaller labelling threshold |
| Gantt.LabelledIndices | gui/widgets/gantt.py:178-182 | exactly the bars long enough for the threshold are labelled, in order |
| Gantt.Labels | gui/widgets/gantt.py:178-182 | one label per labelled bar, centred on it, with text `J{job}` naming its job |
| Gantt.LabelThresholds | gui/widgets/gantt.py:168-182 | every bar of duration at least 1 is labelled, and a bar of duration 0 or less never is |
| Gantt.YTicks | gui/widgets/gantt.py:199-203 | one tick per machine at its index |
| Gantt.TicksNameMachines | gui/widgets/gantt.py:199-203 | each tick's text names its machine, and different machines have different texts |
| Gantt.BarsInsideLimits | gui/widgets/gantt.py:205-206 | on a decoded solution every bar lies inside the axis limits |
| Gantt.ClearCanvas | gui/widgets/gantt.py:219-226 | clearing the canvas drops the figure and canvas and keeps the cache |
| Gantt.ShowPlaceholder | gui/widgets/gantt.py:34-92 | the placeholder shows the welcome figure on a fresh canvas and keeps the cache |
| Gantt.Clear | gui/widgets/gantt.py:228-232 | clearing shows the placeholder and empties the colour cache |
| Gantt.DrawGantt | gui/widgets/gantt.py:94-113 | drawing leaves a chart with one bar per entry, coloured by the updated cache, and one tick per machine |
| Gantt.FrameOkKept | gui/widgets/gantt.py:26-232 | the widget's cache is always one it built itself, through every lifecycle operation |
| Gantt.DrawAfterClearRebuilds | gui/widgets/gantt.py:120-232 | after a clear, drawing rebuilds the cache for the instance's job count |
| Export.Entries | gui/utils/export.py:21-25 | one entry per element of the order, with its machine, start and processing time |
| Export.CsvRows | gui/utils/export.py:19-34 | the header, then one row per entry in order |
| Export.CsvRow | gui/utils/export.py:27-34 | six cells, matching the header |
| Export.TwoDecimalsRoundTrip | gui/utils/export.py:31-33 | a time printed with two decimals reads back as the same integer |
| Export.CsvRowPlain | gui/utils/export.py:27-34 | no cell needs quoting, so the writer prints each cell as it is |
| Export.CsvRowRoundTrip | gui/utils/export.py:27-34 | a printed data row reads back as the entry it was written from |
| Export.MaxEnd | gui/utils/export.py:48-49 | the largest end time of a non-empty list of entries |
| Export.ExportJson | gui/utils/export.py:39-74 | an empty order raises max's empty-sequence error; otherwise the counts and one record per entry, each end being start plus duration |
| Export.JsonMakespanIsLatestEnd | gui/utils/export.py:48-69 | the JSON makespan is the latest end time among its own operations |
| Export.JsonMatchesChart | gui/utils/export.py:48-49 | for a non-empty order the JSON makespan is the chart's |
| Export.CsvMatchesJson | gui/utils/export.py:21-69 | each CSV data row reads back as the corresponding JSON operation |
| Sidebar.CheckField | gui/widgets/sidebar.py:128-159 | a kept field is a number within its hard limits, and it is warned about exactly when it exceeds its soft limit |
| Sidebar.LiveAgreesWithFinal | gui/widgets/sidebar.py:81-111 | the live border is red exactly when the final check rejects the field, orange exactly when it is kept with a warning; a blank field is left alone live but rejected at the end |
| Sidebar.CheckAll | gui/widgets/sidebar.py:128-159 | kept values, red fields and warnings are exactly the fields accepted, rejected and warned; no error exactly when every field passes |
| Sidebar.CrossCheck | gui/widgets/sidebar.py:161-165 | the cross-field check never changes the kept values or warnings |
| Sidebar.GetParameters | gui/widgets/sidebar.py:113-121 | an algorithm other than the genetic one is returned with no parameters |
| Sidebar.GeneticAcceptance | gui/widgets/sidebar.py:113-195 | genetic parameters are returned exactly when every field passes, the tournament is no larger than the population, and any warning is confirmed |
| Sidebar.AcceptedWithinLimits | gui/widgets/sidebar.py:128-195 | returned parameters hold every field, each the field's number and within its hard limits, with the tournament no larger than the population |
| Sidebar.MarkedFields | gui/widgets/sidebar.py:155-165 | the fields turned red are the rejected ones plus the tournament field when it exceeds the population |
| Sidebar.AlgorithmFromChoice | gui/widgets/sidebar.py:224-225 | the dropdown always yields one of the three algorithm names |
| Sidebar.ChoicesDistinct | gui/widgets/sidebar.py:207-225 | the three labels name three different algorithms, and any other label falls back to the genetic one |

## Left out

- Integer width. C++ `int` and `size_t` are unbounded integers here: overflow of start times or makespans is not modelled, and neither are negative tokens read into `size_t` fields.
- The bookkeeping in `calculate_makespan` that is never read: the op-index map and the last-machine vector.
- Randomness. `std::mt19937` and its seeding (the given seed, or the clock when it is 0) are not modelled. Every draw is a parameter constrained to the range the distribution produces.
- Genetic.RunGenetic: requires a population size of at least 1. With an empty population the source reads `population[0]`, which is undefined behaviour. When there is at least one generation it also requires the instance to have at least one operation: on an instance without operations, `order_crossover` draws its cut points from `uniform_int_distribution(0, n - 1)` with `n - 1` wrapped round to the largest `size_t`, then writes past the end of the child, which is undefined behaviour. It further requires every job's `job_id` to equal its position (`JobIdsAreIndices`). `generate_random_solution` enumerates operations by `job.job_id`, and `calculate_makespan` indexes jobs by that number, so the two only agree on instances whose ids are their positions, which is what the reader builds.
- Sidebar.AcceptedWithinLimits: a field is a real number or unparsable, so NaN is outside the model. Python's `float("nan")` fails both the `<` and the `>` comparison, so the source keeps `mutation_prob = nan`, shows a normal border and returns it. The lemma's claim that every returned value lies within its hard limits therefore holds only for the fields the model can express.
- The A* main loop as a whole. `Exact.Step` is one iteration, and properties are stated per iteration. Termination and optimality of the search are not proved.
- The STL containers. The priority queue is a sequence from which a top item (`Exact.TopIndex`) is removed, and the hash maps are Dafny maps. Which of several tied top items `std::priority_queue` pops is left open.
- Exact.Reconstruct: the walk back to the root takes a fuel bound. It is proved sufficient when the fuel is at least the number of scheduled operations, which `Exact.ReconstructDecodes` uses.
- Exact.KnownKeyPruned: holds for instances with non-negative processing and transport times. With negative times the source can reopen states, and the model does not cover that case.
- FileIo.LoadInstance: requires the token stream to be complete, meaning every token the reader asks for is present and machine ids are non-negative. A truncated file, on which `ifstream` silently leaves fields unread, is not modelled. The stream is already split into integer tokens.
- Floating point. Python floats (axis limits, label positions, the mutation probability) are exact reals, and the mutation-probability comparison in the genetic loop is a boolean draw.
- What Python's `int()`/`float()` make of a field's text. It is an input (`Sidebar.Field`).
- Sidebar wording and dialogs. Message texts and the dialogs are not modelled; the user's answer to the warning dialog is the input `confirm`.
- Matplotlib. Drawing, fonts and colormaps are not modelled: a colour is kept as the colormap, job and denominator it is looked up with.
- Gantt.PrepareData, Export.Entries: require every entry to be a valid operation with a start time, and (for the chart) a colour in the cache. On other inputs the Python code raises `IndexError`/`KeyError`, and those failures are not modelled.
- `export_gantt_image`, the file paths and directory creation of the exporters, and the writing of the files.
- The pybind11 bindings, the command-line `main` and the GUI wiring outside the modelled widget methods.
