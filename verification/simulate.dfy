/**
 * `simulate()` (script.js:60-88) without the page: refuse an empty process
 * list, run the chosen algorithm, and total the results for the metrics
 * panel. The quantum, read from the page in the source, arrives here as
 * part of the algorithm choice.
 */
module Simulator {
  import opened Processes
  import Fcfs
  import NonPreemptive
  import RoundRobin
  import Metrics

  datatype Algorithm = FirstComeFirstServed | ShortestJobFirst | PriorityScheduling | RoundRobinSlices(quantum: int)

  /** What a run shows: nothing and an alert on an empty list, otherwise the
      results and their totals. */
  datatype Report = NoProcesses | Report(results: seq<Finished>, totals: Metrics.Totals)

  /** Runs the chosen algorithm on the list: FCFS yields the stable arrival
      order on a running clock, SJF and Priority a prompt greedy schedule by
      their key, and round robin its as-written results. */
  function Results(ps: seq<Process>, algorithm: Algorithm): (rs: seq<Finished>)
    requires |ps| > 0
    requires algorithm.RoundRobinSlices? ==> algorithm.quantum > 0
    ensures |rs| > 0
    ensures forall i :: 0 <= i < |rs| ==> Timed(rs[i])
    ensures !algorithm.RoundRobinSlices? ==>
      && multiset(Procs(rs)) == multiset(ps)
      && forall i :: 0 <= i < |rs| ==> rs[i].response == rs[i].waiting
    ensures algorithm.FirstComeFirstServed? ==>
      && Fcfs.SortedByArrival(Procs(rs))
      && (forall t :: Fcfs.ArrivingAt(Procs(rs), t) == Fcfs.ArrivingAt(ps, t))
      && rs[0].start == rs[0].proc.arrival
      && forall i :: 0 < i < |rs| ==> rs[i].start == Max(rs[i - 1].completion, rs[i].proc.arrival)
    ensures algorithm.ShortestJobFirst? && ValidProcesses(ps) ==>
      && NonPreemptive.Scheduled(NonPreemptive.ShortestJob, MinArrival(ps), rs)
      && NonPreemptive.Prompt(MinArrival(ps), rs)
      && NonPreemptive.LastOnTies(NonPreemptive.ShortestJob, ps, rs)
    ensures algorithm.PriorityScheduling? && ValidProcesses(ps) ==>
      && NonPreemptive.Scheduled(NonPreemptive.HighestPriority, MinArrival(ps), rs)
      && NonPreemptive.Prompt(MinArrival(ps), rs)
      && NonPreemptive.LastOnTies(NonPreemptive.HighestPriority, ps, rs)
    ensures algorithm.RoundRobinSlices? ==> rs == RoundRobin.SimulateRR(ps, algorithm.quantum).results
  {
    match algorithm
    case FirstComeFirstServed => Fcfs.SimulateFcfs(ps)
    case ShortestJobFirst =>
      var rs := NonPreemptive.SimulateSjf(ps);
      assert NonPreemptive.Delivers(ps, rs);
      rs
    case PriorityScheduling =>
      var rs := NonPreemptive.SimulatePriority(ps);
      assert NonPreemptive.Delivers(ps, rs);
      rs
    case RoundRobinSlices(quantum) => RoundRobin.SimulateRR(ps, quantum).results
  }

  /** `simulate()`: the empty list is refused; otherwise the report shows
      exactly the results the chosen algorithm yields, the totals are taken
      over them, and the waiting total is the turnaround total less the
      burst total. Without preemption the response total equals the waiting
      total. */
  function Simulate(ps: seq<Process>, algorithm: Algorithm): (r: Report)
    requires algorithm.RoundRobinSlices? ==> algorithm.quantum > 0
    ensures r.NoProcesses? <==> |ps| == 0
    ensures |ps| > 0 ==> r.Report? && r.results == Results(ps, algorithm)
    ensures r.Report? ==> Metrics.Aggregate(r.results) == Some(r.totals)
    ensures r.Report? ==>
      && r.totals.count == |r.results| > 0
      && r.totals.waiting == r.totals.turnaround - r.totals.burst
    ensures r.Report? && !algorithm.RoundRobinSlices? ==>
      && r.totals.count == |ps|
      && r.totals.response == r.totals.waiting
  {
    if |ps| == 0 then NoProcesses
    else
      var rs := Results(ps, algorithm);
      Metrics.WaitingIdentity(rs);
      if algorithm.RoundRobinSlices? then Report(rs, Metrics.Aggregate(rs).value)
      else
        Metrics.ResponseIsWaiting(rs);
        Report(rs, Metrics.Aggregate(rs).value)
  }

  /** Back-to-back results of the listed processes, the first starting no
      earlier than its arrival, with no arrival before time 0, keep the
      processor busy at most 100% of the time up to the last completion. */
  lemma UtilisationOf(ps: seq<Process>, rs: seq<Finished>)
    requires |rs| > 0 && multiset(Procs(rs)) == multiset(ps) && Metrics.BackToBack(rs)
    requires rs[0].proc.arrival <= rs[0].start
    requires forall i :: 0 <= i < |ps| ==> ps[i].arrival >= 0
    ensures Metrics.Aggregate(rs).value.burst <= Metrics.Aggregate(rs).value.maxCompletion
  {
    assert Procs(rs)[0] == rs[0].proc;
    assert rs[0].proc in multiset(ps);
    Metrics.Utilisation(rs);
  }

  lemma FcfsUtilisation(ps: seq<Process>)
    requires |ps| > 0
    requires forall i :: 0 <= i < |ps| ==> ps[i].arrival >= 0
    ensures Metrics.Aggregate(Fcfs.SimulateFcfs(ps)).value.burst
      <= Metrics.Aggregate(Fcfs.SimulateFcfs(ps)).value.maxCompletion
  {
    UtilisationOf(ps, Fcfs.SimulateFcfs(ps));
  }

  lemma PolicyUtilisation(policy: NonPreemptive.Policy, ps: seq<Process>)
    requires |ps| > 0 && ValidProcesses(ps)
    requires forall i :: 0 <= i < |ps| ==> ps[i].arrival >= 0
    ensures |NonPreemptive.Simulate(policy, ps)| > 0
    ensures Metrics.Aggregate(NonPreemptive.Simulate(policy, ps)).value.burst
      <= Metrics.Aggregate(NonPreemptive.Simulate(policy, ps)).value.maxCompletion
  {
    var rs := NonPreemptive.Simulate(policy, ps);
    assert NonPreemptive.Scheduled(policy, MinArrival(ps), rs);
    assert NonPreemptive.Delivers(ps, rs);
    assert forall i :: 0 <= i < |rs| ==> NonPreemptive.Uninterrupted(rs[i]);
    UtilisationOf(ps, rs);
  }

  /** Utilisation of one non-preemptive algorithm's results. */
  lemma ResultsUtilisation(ps: seq<Process>, algorithm: Algorithm)
    requires |ps| > 0 && ValidProcesses(ps) && !algorithm.RoundRobinSlices?
    requires forall i :: 0 <= i < |ps| ==> ps[i].arrival >= 0
    ensures Metrics.Aggregate(Results(ps, algorithm)).value.burst
      <= Metrics.Aggregate(Results(ps, algorithm)).value.maxCompletion
  {
    match algorithm {
      case FirstComeFirstServed =>
        FcfsUtilisation(ps);
      case ShortestJobFirst =>
        PolicyUtilisation(NonPreemptive.ShortestJob, ps);
      case PriorityScheduling =>
        PolicyUtilisation(NonPreemptive.HighestPriority, ps);
    }
  }

  /** On a list as `addProcess` builds it, with no arrival before time 0,
      the non-preemptive simulators keep the processor busy at most 100% of
      the time up to the last completion. */
  lemma NonPreemptiveUtilisation(ps: seq<Process>, algorithm: Algorithm)
    requires |ps| > 0 && ValidProcesses(ps) && !algorithm.RoundRobinSlices?
    requires forall i :: 0 <= i < |ps| ==> ps[i].arrival >= 0
    ensures Simulate(ps, algorithm).totals.burst <= Simulate(ps, algorithm).totals.maxCompletion
  {
    ResultsUtilisation(ps, algorithm);
  }

  /** Round robin as written can show a utilisation above 100%: on a
      late-front pair whose early process arrives at time 0 or later but
      before its own burst has elapsed, that process is reported twice, so
      the burst total exceeds the latest completion. */
  lemma RoundRobinOverUtilises(quantum: int, p1: Process, p2: Process)
    requires RoundRobin.LateFront(quantum, p1, p2) && 0 <= p2.arrival < p2.burst
    ensures |RoundRobin.SimulateRR([p1, p2], quantum).results| > 0
    ensures Metrics.Aggregate(RoundRobin.SimulateRR([p1, p2], quantum).results).value.burst
      > Metrics.Aggregate(RoundRobin.SimulateRR([p1, p2], quantum).results).value.maxCompletion
  {
    RoundRobin.AsWrittenLosesProcess(quantum, p1, p2);
    var rs := RoundRobin.SimulateRR([p1, p2], quantum).results;
    assert rs[..1][..0] == [];
    assert rs[..|rs| - 1] == rs[..1];
    assert Metrics.Sum(rs[..1], Metrics.Burst) == p2.burst;
    assert Metrics.Sum(rs, Metrics.Burst) == 2 * p2.burst;
    assert Metrics.MaxCompletion(rs) == p2.arrival + p2.burst;
  }
}
