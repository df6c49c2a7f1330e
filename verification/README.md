# CPU scheduling simulator, modelled in Dafny

The simulator is a browser page, `script.js`. It keeps a list of processes, each with an id, an arrival time, a burst time and a priority. It runs one of four scheduling algorithms over that list:

- first-come-first-served (FCFS);
- non-preemptive shortest-job-first (SJF);
- non-preemptive priority scheduling;
- round robin (RR) with a time quantum.

It then tabulates, for every process:

- the completion time;
- the turnaround time (completion − arrival);
- the waiting time (turnaround − burst);
- the response time (first start − arrival).

It shows the start and completion times on a Gantt chart: one block per result, or one per slice for round robin. From the results it computes totals for the metrics panel.

This project models the engine without the page. It has one Dafny module per part of the source:

| file | module | models |
|---|---|---|
| `processes.dfy` | `Processes` | The process and result records, and the round-robin timeline block. Also the queue scans the loops share: the filter of arrived processes, the earliest queued arrival, and `splice`. |
| `registry.dfy` | `Registry` | `addProcess` and `deleteProcess` over an explicit state, made of the list and the id counter. |
| `fcfs.dfy` | `Fcfs` | `simulateFCFS`: a stable insertion sort by arrival, then the running clock. |
| `nonpreemptive.dfy` | `NonPreemptive` | `simulateSJF` and `simulatePriority` as one loop over a `Policy`. The selection is the source's `reduce` with a strict `<`, so among equal keys the last of the arrived processes, in queue order, wins. |
| `roundrobin.dfy` | `RoundRobin` | `simulateRR` as written (`Step`, `Loop`, `SimulateRR`). Also a corrected version (`FixedStep`, `FixedLoop`, `FixedSimulateRR`), the proof that the two agree once everything has arrived, and the counterexample where they differ. |
| `metrics.dfy` | `Metrics` | The integer part of `calculateAndDisplayMetrics`: the count, the four totals and the latest completion. |
| `simulate.dfy` | `Simulator` | `simulate()`: refuse an empty list, dispatch on the algorithm, total the results. |

Each simulator is a recursive function. The loops' termination measures are the ones the source implies:

- the non-preemptive loop uses the queue length, with an idle round ranking above the dispatch that follows it;
- round robin uses the remaining work owed to the queue, then the queue length.

The JavaScript filter returns references to queued records. The model represents such a reference as an index into the queue.

## Model

| member | source | states |
|---|---|---|
| Registry.NormalPriority | script.js:12 | A missing or zero priority becomes 1; any other value, negative included, is kept. The result is never 0. |
| Registry.InitialWellFormed | script.js:1-2 | The page-load state, an empty list with the counter at 1, is well formed. |
| Registry.AddProcess | script.js:9-27 | Rejected exactly when the arrival is missing, the burst is missing, or the burst is not positive. Otherwise the list gains one record at its end: the earlier records are unchanged, the new id is the counter, the counter is bumped, the remaining time equals the burst, and the priority is normalised. |
| Registry.WithoutCounts | script.js:39 | The filter keeps every record whose id differs, with its multiplicity, and drops every record with the id. |
| Registry.DeleteProcess | script.js:38-39 | No record with the id is left. Every other record keeps its multiplicity. The counter is untouched. |
| Registry.WithoutAppend | script.js:39 | The filter works piecewise over a concatenation, so the relative order of the kept records is preserved. |
| Registry.WithoutAbsent | script.js:39 | Deleting an id that no record has leaves the list unchanged. |
| Registry.AddKeepsWellFormed | script.js:14-27 | Adding keeps the list well formed: positive bursts, remaining time equal to burst, distinct ids, all below the counter. |
| Registry.DeleteKeepsWellFormed | script.js:38-39 | Deleting keeps the list well formed. |
| Registry.DeleteUndoesAdd | script.js:9-41 | Adding a process and then deleting the id it received gives back the original list. |
| Fcfs.Insert | script.js:91 | One insertion step of the sort adds exactly the inserted record. |
| Fcfs.InsertSorted | script.js:91 | Insertion into a list sorted by arrival keeps it sorted. |
| Fcfs.SortByArrival | script.js:91 | The sorted list is a permutation of the input, in non-decreasing arrival order. |
| Fcfs.SortIsStable | script.js:91 | For every arrival time, the records with that arrival keep their input order: the sort is stable, as the source's `Array.prototype.sort` is. |
| Fcfs.SortOfSorted | script.js:91 | A list already in arrival order is left as it is. |
| Fcfs.Run | script.js:94-111 | Result i is made from record i. It starts at the later of the previous completion and its arrival; the first starts at the later of the initial clock and its arrival. It runs for its burst and carries the derived turnaround, waiting and response times. |
| Fcfs.SimulateFcfs | script.js:90-112 | The results are the input records as a permutation, stably sorted by arrival. The first starts at its arrival and each later one at max(previous completion, arrival). Every result has completion = start + burst, response = waiting, and waiting ≥ 0. |
| Fcfs.FcfsRerun | script.js:90-112 | Running FCFS again on its own output order reproduces the same results. |
| Processes.ArrivedSound | script.js:120 | Every entry of the filtered list is a queued process that has arrived by the clock. |
| Processes.ArrivedComplete | script.js:120 | Every queued process that has arrived is in the filtered list. |
| Processes.ArrivedIncreasing | script.js:120 | The filtered list keeps queue order. |
| Processes.MinArrivalFacts | script.js:117 | The computed start clock is a lower bound on the queued arrivals and is one of them. |
| Processes.IdleJump | script.js:122-125 | When nothing has arrived, the jump moves the clock strictly forward, and at the new clock something has arrived. |
| Processes.RemoveAtFacts | script.js:132 | `splice` keeps the records before the index in place and shifts the later ones down by one. It removes exactly one copy of the chosen record. |
| Processes.RemoveAtKeepsValid | script.js:132 | Removing a record from a valid queue leaves it valid. |
| NonPreemptive.ReduceFromFacts | script.js:127-129 | The `reduce` with strict `<` ends on a minimum key. No later entry has an equal key. |
| NonPreemptive.LastMinimumFacts | script.js:127-129 | Over the whole filtered list, the pick has the minimum key and is the last entry with that key. |
| NonPreemptive.FindPid | script.js:131 | `findIndex` returns the first queue index holding the requested id: that index holds it and no earlier one does. |
| NonPreemptive.FindPidUnique | script.js:131 | With distinct ids, `findIndex` on a record's id returns that record's own index. |
| NonPreemptive.SelectChoice | script.js:120-132 | The dispatched process has arrived and has the minimum key among arrived processes. Every arrived process after it in queue order has a strictly larger key, so ties go to the last in queue order. |
| NonPreemptive.IdleRound | script.js:122-125 | An idle round dispatches nothing. A schedule from the jumped clock is a schedule from the earlier one. A prompt run from the jumped clock is a prompt run from the earlier one, because its first pick arrives after the earlier clock and no later than anything still queued. |
| NonPreemptive.DispatchRound | script.js:127-149 | One dispatch round starts the pick at the clock and runs it for its burst. Prepending its result keeps the output a permutation of the queue, keeps the schedule greedy, keeps the run prompt and keeps the tie rule. |
| NonPreemptive.QueuedBeforeRemoveAt | script.js:132 | Two records in queue order after the splice were in the same order before it. |
| NonPreemptive.TieAheadOfPick | script.js:127-132 | A record still queued after the pick, which had arrived by the pick's start and shares its key, is queued ahead of the pick. |
| NonPreemptive.TiesCons | script.js:119-150 | A dispatching round followed by a run that keeps the tie rule keeps the tie rule over the whole queue. |
| NonPreemptive.FirstSeenTieRejected | script.js:127-129 | Two processes arriving together with equal bursts: the order that runs the first-queued one first breaks the tie rule, which the code's `reduce` follows. |
| NonPreemptive.PromptCons | script.js:134-149 | A dispatch at the clock of a process that has arrived, followed by a prompt run from its completion, is a prompt run. |
| NonPreemptive.Run | script.js:119-150 | The results are a permutation of the queue, each uninterrupted: completion = start + burst and response = waiting. On a valid queue: every start is at or after the clock and the process's arrival; executions do not overlap and come in dispatch order; and a process dispatched when another had already arrived has a key no larger than that other's. The run is prompt: each dispatch starts at the clock it sees, which is the initial clock or the previous completion. The exception is when nothing queued has arrived by then; the dispatch then starts at its own arrival, the earliest of the arrivals still to run. Ties follow the code: if a later dispatch had arrived by an earlier one's start and has the same key, it is queued ahead of the earlier one. So among tied arrived processes the last in queue order runs first. |
| NonPreemptive.Simulate | script.js:114-194 | The same guarantees, the tie rule included, for the whole run from the earliest arrival. An empty list yields no results. |
| RoundRobin.WorkUpdate | script.js:219 | Updating a record in place changes the owed work by the change in that record's remaining time. |
| RoundRobin.FirstBlockSpec | script.js:226 | `timeline.find` succeeds exactly when the process has a slice, and then returns its earliest slice. |
| RoundRobin.FirstBlockFound | script.js:213-226 | Once a slice is logged, the search for its process succeeds. |
| RoundRobin.FirstBlockAppend | script.js:213-226 | After a slice is logged, a process's existing first slice stays its first. A process without one gets the new slice as its first if the slice is its own, and otherwise still has none. |
| RoundRobin.ExecutedDone | script.js:211-219 | With a positive quantum, a slice never overshoots: a finished copy has exactly 0 left, and an unfinished one ran a full quantum. |
| RoundRobin.StepShrinks | script.js:209-225 | Each as-written iteration lowers the owed work, or keeps it and shortens the queue. |
| RoundRobin.FixedStepShrinks | script.js:209-225 | The same for the corrected iteration. |
| RoundRobin.Loop | script.js:202-236 | The as-written loop ends with an empty queue. It only appends to the timeline and to the results, and it appends at least one result when the queue was non-empty. |
| RoundRobin.FixedLoop | script.js:202-236 | The same for the corrected loop. |
| RoundRobin.LoopTimed | script.js:226-234 | Every result the loop pushes carries turnaround, waiting and response times derived from its completion, its start, its arrival and its burst. That the start is the first slice's is stated by `RoundRobin.SimulateRR`. |
| RoundRobin.FixedLoopTimed | script.js:226-234 | The same for the corrected loop. |
| RoundRobin.SimulateRR | script.js:196-240 | An empty list yields no results and no timeline. A non-empty list yields at least one result, and every result is timed. On a valid list every result is backed by the timeline: its start is its process's first slice, which began no earlier than its arrival; its completion is the end of one of its slices, at least its burst after the start; and its response and waiting times are not negative. |
| RoundRobin.FixedSimulateRR | script.js:196-240 | An empty list yields nothing, and a non-empty list yields results, every one timed. On a valid list every result is backed by the timeline as for `RoundRobin.SimulateRR`, its response and waiting times are not negative, and its completion is the end of its process's last slice. |
| RoundRobin.SliceTraced | script.js:210-234 | Running one slice keeps every queued copy tracked against the longer timeline and the later clock, and keeps earlier results backed. A copy that is done is reported as the timeline backs it. Tracked means: it owes no negative time; before its first slice it owes its whole burst; after it, it had arrived when that slice began, and the time since then covers the work it has received. |
| RoundRobin.StepTraced | script.js:209-236 | An as-written iteration keeps the invariant: distinct queued ids, every copy tracked, every result backed. |
| RoundRobin.FixedStepTraced | script.js:209-236 | The same for the corrected iteration. |
| RoundRobin.LoopTraced | script.js:202-236 | The as-written loop ends in a state meeting the invariant. |
| RoundRobin.FixedLoopTraced | script.js:202-236 | The same for the corrected loop. |
| RoundRobin.StartTraced | script.js:197-200 | A list as `addProcess` builds it starts the invariant: no slice yet, so every copy owes its whole burst. |
| RoundRobin.RunTraced | script.js:196-240 | On a valid list, the as-written run ends meeting the invariant. |
| RoundRobin.FixedStepClosed | script.js:222-234 | A corrected iteration keeps no finished process queued, and leaves each completion at the end of its process's last slice. |
| RoundRobin.FixedLoopClosed | script.js:202-236 | The corrected loop keeps the same bookkeeping to its end. |
| RoundRobin.FixedRunTraced | script.js:196-240 | On a valid list, the corrected run ends meeting both invariants. |
| RoundRobin.FrontIsFirst | script.js:203-210 | When the queue's front has arrived, it is the first arrived process. |
| RoundRobin.StepMatchesFixed | script.js:209-235 | When the queue's front has arrived, the as-written iteration equals the corrected one. |
| RoundRobin.LoopMatchesFixed | script.js:202-236 | Once every queued process has arrived and none owes negative time, the as-written loop and the corrected loop give the same timeline and the same results. |
| RoundRobin.LateFrontStart | script.js:197-203 | For a list whose front arrives after the second process, the run starts at the second process's arrival, with only that process available. |
| RoundRobin.AsWrittenFirstStep | script.js:210-234 | In that case, the first iteration runs and finishes the second process, then shifts the unexecuted front off the queue. |
| RoundRobin.AsWrittenSecondStep | script.js:210-234 | A finished copy left in the queue runs an empty slice and is reported again, with its first slice's start. |
| RoundRobin.AsWrittenLosesProcess | script.js:222-226 | Whole run, as written, on such a two-process list: the late front process never runs. The early one is reported twice, and the timeline ends in an empty slice. |
| RoundRobin.AsWrittenMiscounts | script.js:222-226 | Consequently, the as-written results' ids differ from the listed ids. |
| RoundRobin.ZeroQuantumStalls | script.js:211-223 | With quantum 0, an iteration appends an empty slice at the clock to the timeline and rotates the queue. The clock, the results and the owed work stay as they were, so the loop never ends. |
| RoundRobin.PidsRemoveAt | script.js:225 | Removing a record removes exactly one copy of its id. |
| RoundRobin.FixedStepAccounts | script.js:222-235 | A corrected iteration loses and duplicates no id, counting ids queued plus ids reported. |
| RoundRobin.FixedLoopAccounts | script.js:202-236 | The corrected loop reports exactly the ids it was given, plus those already reported. |
| RoundRobin.FixedCompletesEach | script.js:196-240 | The corrected simulator reports every listed process exactly once: the reported ids equal the listed ids as a multiset. |
| RoundRobin.OwedUnique | script.js:197 | With distinct ids, the time owed to a listed process is its own remaining time. |
| RoundRobin.FixedStepConserves | script.js:211-220 | For every id, a corrected iteration moves exactly the slice's length from the time owed to the time spent on the timeline. |
| RoundRobin.FixedLoopConserves | script.js:202-236 | For every id, the time the corrected loop spends on it equals what it was owed. |
| RoundRobin.FixedRunsEachBurst | script.js:196-240 | On a valid list, the corrected timeline gives every process exactly its burst time. |
| RoundRobin.FixedStepPaced | script.js:211-235 | A corrected iteration keeps its invariant and moves the clock strictly forward. The invariant is: queued copies are still owed time; slices do not overlap, are in order and last between 1 and `quantum`; results are in completion order; nothing lies after the clock. |
| RoundRobin.FixedLoopPaced | script.js:202-236 | From a state meeting the invariant, the corrected loop's timeline is ordered and its results are in completion order. |
| RoundRobin.FixedTimelineOrdered | script.js:196-240 | On a valid list, the corrected timeline is a sequence of non-overlapping slices of 1 to `quantum` units, in time order. The results come out in completion order. |
| RoundRobin.SimultaneousArrivals | script.js:196-240 | When all processes arrive together, the as-written simulator equals the corrected one. It then reports every process once and gives each exactly its burst. |
| Metrics.MaxCompletionFacts | script.js:297 | The latest completion bounds every completion and is one of them. |
| Metrics.Aggregate | script.js:287-298 | No totals for an empty result list. Otherwise the count is the number of results and the maximum is the latest completion. |
| Metrics.WaitingIdentity | script.js:289-298 | Over timed results, the waiting total is the turnaround total less the burst total. |
| Metrics.ResponseIsWaiting | script.js:289-291 | When each result's response equals its waiting time, so do the totals. |
| Metrics.BackToBackSpan | script.js:297-298 | Results that run back to back span at least their total burst time. |
| Metrics.Utilisation | script.js:297-299 | Back-to-back results starting at time 0 or later have a latest completion at least the total burst, so the utilisation shown is at most 100%. |
| Simulator.Results | script.js:66-83 | Dispatch on the algorithm for a non-empty list. Every algorithm yields results, all timed. The non-preemptive ones yield a permutation of the list with response = waiting. Each algorithm's own result shape is stated. FCFS gives the stable arrival order: the first starts at its arrival, each later one at max(previous completion, arrival). SJF and Priority, on a valid list, give a prompt greedy schedule by burst or by priority from the earliest arrival, with ties going to the last in queue order. Round robin gives its as-written results. |
| Simulator.Simulate | script.js:60-88 | The empty list is refused. Otherwise the report shows exactly the results of the chosen algorithm, its totals are the aggregate of those results, and waiting = turnaround − burst in total. Without preemption, the count is the list's length and the response total equals the waiting total. |
| Simulator.UtilisationOf | script.js:297-299 | Back-to-back results of the listed processes, with no arrival before 0, show utilisation of at most 100%. |
| Simulator.FcfsUtilisation | script.js:297-299 | FCFS on a list with no negative arrival shows utilisation of at most 100%. |
| Simulator.PolicyUtilisation | script.js:297-299 | SJF and Priority on a valid list with no negative arrival show utilisation of at most 100%. |
| Simulator.ResultsUtilisation | script.js:297-299 | The same for each non-preemptive algorithm in the dispatch. |
| Simulator.NonPreemptiveUtilisation | script.js:297-299 | The same for the whole `simulate()` report. |
| Simulator.RoundRobinOverUtilises | script.js:222-226 | Round robin as written shows a utilisation above 100% on a late-front pair whose early process arrives at 0 or later, before its burst has elapsed. That process is reported twice, so the burst total exceeds the latest completion. |

## Left out

- The page:
  - the algorithm change listener;
  - `clearInputs`, `updateProcessTable`, `displayResults` and `displayGanttChart`;
  - the `alert` calls and the reads of form fields.

  `simulate()` is modelled as a function of the list and an `Algorithm` value.
- `parseInt`: each form field arrives as `Option<int>`, where `None` stands for `NaN`. JavaScript numbers are doubles, but the model uses unbounded integers. The two agree while every input, every clock value and every total stays within ±(2^53 − 1). Outside that range, doubles round. For example, arrival 2^53 − 1 with burst 2 completes at 2^53 + 1 in the model, but a double stores 2^53.
- The averages, CPU utilisation and throughput. These are floating-point quotients rounded by `toFixed(2)`. The model stops at their integer numerators and denominators, and states the utilisation bound as `burst total ≤ latest completion`.
- Metrics.Aggregate: returns `None` on an empty result list, where the source would compute `NaN` averages and take the maximum of nothing. `simulate()` never reaches that case.
- RoundRobin.SimulateRR: requires `quantum > 0`. The source never checks the quantum. A quantum of 0 never terminates, as `RoundRobin.ZeroQuantumStalls` shows. A `NaN` quantum, from an empty or non-numeric field, is not modelled. There each dispatching iteration makes its slice, the remaining time and the clock `NaN`. Because `NaN > 0` fails, it takes the `shift()` branch. The next filter is then empty, so an idle iteration resets the clock to the earliest queued arrival. The run ends after one dispatching iteration per listed process, with idle iterations in between. Each dispatch pushes a result whose completion is `NaN`. Negative quanta are not modelled either.
- Fcfs.SimulateFcfs: requires a non-empty list. The source reads the first sorted record unguarded, and `simulate()` refuses an empty list before calling it.
- The initial clock of an empty round-robin run: the source takes `Math.min()` of nothing, which is `Infinity`. The model uses 0. The loop is not entered either way, so the result is the same.
- `results.timeline`: the timeline attached as a property of the results array is modelled as a separate field of `RoundRobin.Outcome`.
- NonPreemptive.Run: its schedule and promptness guarantees are stated only for valid queues, meaning positive bursts and distinct ids, which is what `addProcess` stores. With a repeated id, `findIndex` can splice a record other than the pick, which may not have arrived yet. The permutation and timing guarantees hold for every queue.
- Simulator.NonPreemptiveUtilisation: stated only for lists with no arrival before time 0. The source accepts negative arrivals (only `NaN` is rejected), and for them the bound fails. For example, FCFS on P1 (arrival −10, burst 10) and P2 (arrival 0, burst 1) completes at 0 and 1, so the panel shows 11 / 1 = 1100%.
- Utilisation of round-robin results: no bound is stated. For the code as written none holds. On the input of the finding below (P2 arrives at 0 with burst 1 and is reported twice), the burst total is 2 and the latest completion 1, so the panel shows 200%; `Simulator.RoundRobinOverUtilises` proves this for every such pair. For the corrected simulator, the order and the slices are stated through `RoundRobin.FixedTimelineOrdered`, but the utilisation bound itself is not proved.
- Selection ties: the code lets the last of the arrived processes, in queue order, win among equal keys. It has no tie-break by arrival and then id, and the model follows the code.
- Negative arrival times are accepted by the code, and the model accepts them too.

## Findings

| source | as written | input that shows it | evidently intended | confidence | as-written member | corrected member |
|---|---|---|---|---|---|---|
| script.js:222-225 | Round robin runs the first *arrived* process, but then rotates or shifts the *front* of the queue. These are different records whenever the front has not arrived yet. | The list `[P1 (arrival 5, burst 1), P2 (arrival 0, burst 1)]` with quantum 2. More generally, any front process arriving after a second process whose burst fits in one quantum. P2 runs and finishes, and `shift()` drops P1, which never runs. P2's finished copy runs an empty slice and is reported twice. | The process that ran goes to the back of the queue, or leaves it when done. | not executed | RoundRobin.AsWrittenLosesProcess | RoundRobin.FixedCompletesEach |

The corrected loop is `RoundRobin.FixedLoop`. Besides `FixedCompletesEach`, it satisfies:

- `RoundRobin.FixedRunsEachBurst`: each process gets exactly its burst;
- `RoundRobin.FixedTimelineOrdered`: slices are ordered, non-overlapping and at most one quantum long.

`RoundRobin.LoopMatchesFixed` shows that it agrees with the code as written once everything has arrived.
