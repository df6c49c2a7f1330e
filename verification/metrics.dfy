/**
 * The integer part of the metrics shown after a run (script.js:287-300):
 * the number of results, the totals of their waiting, turnaround, response
 * and burst times, and the latest completion. The averages, the CPU
 * utilisation and the throughput are floating-point quotients of these and
 * are not modelled.
 */
module Metrics {
  import opened Processes

  /** The per-result quantities the metrics add up. */
  datatype Field = Waiting | Turnaround | Response | Burst

  function Value(field: Field, f: Finished): int {
    match field
    case Waiting => f.waiting
    case Turnaround => f.turnaround
    case Response => f.response
    case Burst => f.proc.burst
  }

  /** `results.reduce((sum, process) => sum + process.<field>, 0)`: a left
      fold, so the last result is added last. */
  function Sum(rs: seq<Finished>, field: Field): int {
    if rs == [] then 0 else Sum(rs[..|rs| - 1], field) + Value(field, rs[|rs| - 1])
  }

  /** `Math.max(...results.map(p => p.completionTime))` on a non-empty list. */
  function MaxCompletion(rs: seq<Finished>): int
    requires |rs| > 0
  {
    if |rs| == 1 then rs[0].completion else Max(MaxCompletion(rs[..|rs| - 1]), rs[|rs| - 1].completion)
  }

  /** The maximum bounds every completion and is one of them. */
  lemma {:induction false} MaxCompletionFacts(rs: seq<Finished>)
    requires |rs| > 0
    ensures forall i :: 0 <= i < |rs| ==> rs[i].completion <= MaxCompletion(rs)
    ensures exists i :: 0 <= i < |rs| && rs[i].completion == MaxCompletion(rs)
  {
    if |rs| > 1 {
      var init := rs[..|rs| - 1];
      MaxCompletionFacts(init);
      assert forall i :: 0 <= i < |init| ==> rs[i] == init[i];
      var j :| 0 <= j < |init| && init[j].completion == MaxCompletion(init);
      if MaxCompletion(init) < rs[|rs| - 1].completion {
        assert rs[|rs| - 1].completion == MaxCompletion(rs);
      } else {
        assert rs[j].completion == MaxCompletion(rs);
      }
    } else {
      assert rs[0].completion == MaxCompletion(rs);
    }
  }

  /** The integers the metrics panel is computed from. */
  datatype Totals = Totals(count: nat, waiting: int, turnaround: int, response: int,
                           maxCompletion: int, burst: int)

  /** The totals of a run; `None` on an empty list, where the source would
      divide by zero and take the maximum of nothing. */
  function Aggregate(rs: seq<Finished>): (t: Option<Totals>)
    ensures t.None? <==> |rs| == 0
    ensures t.Some? ==> t.value.count == |rs| > 0
    ensures t.Some? ==> t.value.maxCompletion == MaxCompletion(rs)
  {
    if |rs| == 0 then None
    else Some(Totals(|rs|, Sum(rs, Waiting), Sum(rs, Turnaround), Sum(rs, Response),
                     MaxCompletion(rs), Sum(rs, Burst)))
  }

  /** Over results whose times are derived as every simulator derives them,
      the total waiting time is the total turnaround less the total burst. */
  lemma {:induction false} WaitingIdentity(rs: seq<Finished>)
    requires forall i :: 0 <= i < |rs| ==> Timed(rs[i])
    ensures Sum(rs, Waiting) == Sum(rs, Turnaround) - Sum(rs, Burst)
  {
    if rs != [] {
      var init := rs[..|rs| - 1];
      assert forall i :: 0 <= i < |init| ==> init[i] == rs[i];
      WaitingIdentity(init);
      assert Timed(rs[|rs| - 1]);
    }
  }

  /** Without preemption a result's response time is its waiting time, and
      so are the totals. */
  lemma {:induction false} ResponseIsWaiting(rs: seq<Finished>)
    requires forall i :: 0 <= i < |rs| ==> rs[i].response == rs[i].waiting
    ensures Sum(rs, Response) == Sum(rs, Waiting)
  {
    if rs != [] {
      var init := rs[..|rs| - 1];
      assert forall i :: 0 <= i < |init| ==> init[i] == rs[i];
      ResponseIsWaiting(init);
    }
  }

  /** Results run one after another, each for its burst. */
  predicate BackToBack(rs: seq<Finished>) {
    && (forall i :: 0 <= i < |rs| ==> rs[i].completion == rs[i].start + rs[i].proc.burst)
    && (forall i :: 0 < i < |rs| ==> rs[i - 1].completion <= rs[i].start)
  }

  /** Back-to-back results span at least their total burst time. */
  lemma {:induction false} BackToBackSpan(rs: seq<Finished>)
    requires |rs| > 0 && BackToBack(rs)
    ensures rs[|rs| - 1].completion >= rs[0].start + Sum(rs, Burst)
  {
    if |rs| > 1 {
      var init := rs[..|rs| - 1];
      assert forall i :: 0 <= i < |init| ==> init[i] == rs[i];
      assert BackToBack(init);
      BackToBackSpan(init);
    }
  }

  /** When the first result starts at time 0 or later, the latest completion
      is at least the total burst: the utilisation the panel shows is at
      most 100%. */
  lemma Utilisation(rs: seq<Finished>)
    requires |rs| > 0 && BackToBack(rs) && rs[0].start >= 0
    ensures Aggregate(rs).value.burst <= Aggregate(rs).value.maxCompletion
  {
    BackToBackSpan(rs);
    MaxCompletionFacts(rs);
  }
}
