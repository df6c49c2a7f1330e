/**
 * First-come-first-served: the process list stably sorted by arrival
 * (JavaScript's `Array.prototype.sort` is stable), then run back to back
 * on a clock that starts at the earliest arrival and never idles past an
 * arrival it could have served.
 */
module Fcfs {
  import opened Processes

  predicate SortedByArrival(ps: seq<Process>) {
    forall i, j :: 0 <= i < j < |ps| ==> ps[i].arrival <= ps[j].arrival
  }

  /** The records arriving at time `a`, in list order: stability means the
      sort leaves this sub-list alone for every `a`. */
  function ArrivingAt(ps: seq<Process>, a: int): seq<Process> {
    if ps == [] then []
    else (if ps[0].arrival == a then [ps[0]] else []) + ArrivingAt(ps[1..], a)
  }

  /** Puts `p` in front of the first record arriving no earlier than it. */
  function Insert(p: Process, ps: seq<Process>): (r: seq<Process>)
    ensures |r| == |ps| + 1
    ensures multiset(r) == multiset(ps) + multiset{p}
  {
    if ps == [] || p.arrival <= ps[0].arrival then [p] + ps
    else
      assert ps == [ps[0]] + ps[1..];
      [ps[0]] + Insert(p, ps[1..])
  }

  lemma {:induction false} InsertSorted(p: Process, ps: seq<Process>)
    requires SortedByArrival(ps)
    ensures SortedByArrival(Insert(p, ps))
    ensures forall i :: 0 <= i < |ps| + 1 ==> Insert(p, ps)[i].arrival >= Min(p.arrival, if ps == [] then p.arrival else ps[0].arrival)
  {
    if ps == [] || p.arrival <= ps[0].arrival {
    } else {
      InsertSorted(p, ps[1..]);
      var tail := Insert(p, ps[1..]);
      assert Insert(p, ps) == [ps[0]] + tail;
      if |ps| > 1 {
        assert ps[0].arrival <= ps[1].arrival;
      }
    }
  }

  /** `[...processes].sort((a, b) => a.arrivalTime - b.arrivalTime)`. */
  function SortByArrival(ps: seq<Process>): (r: seq<Process>)
    ensures |r| == |ps|
    ensures multiset(r) == multiset(ps)
    ensures SortedByArrival(r)
  {
    if ps == [] then []
    else
      assert ps == [ps[0]] + ps[1..];
      InsertSorted(ps[0], SortByArrival(ps[1..]));
      Insert(ps[0], SortByArrival(ps[1..]))
  }

  lemma {:induction false} ArrivingAtAppend(a: seq<Process>, b: seq<Process>, t: int)
    ensures ArrivingAt(a + b, t) == ArrivingAt(a, t) + ArrivingAt(b, t)
  {
    if a == [] {
      assert a + b == b;
    } else {
      assert (a + b)[0] == a[0];
      assert (a + b)[1..] == a[1..] + b;
      ArrivingAtAppend(a[1..], b, t);
    }
  }

  lemma {:induction false} InsertStable(p: Process, ps: seq<Process>, t: int)
    requires SortedByArrival(ps)
    ensures ArrivingAt(Insert(p, ps), t) == ArrivingAt([p], t) + ArrivingAt(ps, t)
  {
    if ps == [] || p.arrival <= ps[0].arrival {
      ArrivingAtAppend([p], ps, t);
    } else {
      assert ps == [ps[0]] + ps[1..];
      InsertStable(p, ps[1..], t);
      ArrivingAtAppend([ps[0]], Insert(p, ps[1..]), t);
      ArrivingAtAppend([ps[0]], ps[1..], t);
    }
  }

  /** The sort is stable: the records sharing an arrival time keep their
      insertion order, for every arrival time. */
  lemma {:induction false} SortIsStable(ps: seq<Process>, t: int)
    ensures ArrivingAt(SortByArrival(ps), t) == ArrivingAt(ps, t)
  {
    if ps != [] {
      SortIsStable(ps[1..], t);
      InsertStable(ps[0], SortByArrival(ps[1..]), t);
      assert ps == [ps[0]] + ps[1..];
      ArrivingAtAppend([ps[0]], ps[1..], t);
    }
  }

  /** A list already in arrival order is left as it is. */
  lemma {:induction false} SortOfSorted(ps: seq<Process>)
    requires SortedByArrival(ps)
    ensures SortByArrival(ps) == ps
  {
    if ps != [] {
      SortOfSorted(ps[1..]);
      assert ps == [ps[0]] + ps[1..];
    }
  }

  /** The `map` over the sorted list (script.js:94-111): each process starts
      at the later of the clock and its arrival and runs to completion. */
  function Run(ps: seq<Process>, clock: int): (r: seq<Finished>)
    ensures |r| == |ps|
    ensures forall i :: 0 <= i < |r| ==> r[i].proc == ps[i]
    ensures forall i :: 0 <= i < |r| ==> Timed(r[i])
    ensures forall i :: 0 <= i < |r| ==> r[i].completion == r[i].start + r[i].proc.burst
    ensures |r| > 0 ==> r[0].start == Max(clock, ps[0].arrival)
    ensures forall i :: 0 < i < |r| ==> r[i].start == Max(r[i - 1].completion, ps[i].arrival)
    ensures forall i :: 0 <= i < |r| ==> ps[i].arrival <= r[i].start
  {
    if ps == [] then []
    else
      var start := Max(clock, ps[0].arrival);
      var rest := Run(ps[1..], start + ps[0].burst);
      var r := [Finish(ps[0], start, start + ps[0].burst)] + rest;
      assert forall i :: 0 < i < |r| ==> r[i] == rest[i - 1];
      assert forall i :: 0 < i < |ps| ==> ps[i] == ps[1..][i - 1];
      r
  }

  /** `simulateFCFS`: the list must be non-empty, since the clock starts at
      the first sorted record's arrival. */
  function SimulateFcfs(ps: seq<Process>): (r: seq<Finished>)
    requires |ps| > 0
    ensures |r| == |ps|
    ensures multiset(Procs(r)) == multiset(ps)
    ensures SortedByArrival(Procs(r))
    ensures forall t :: ArrivingAt(Procs(r), t) == ArrivingAt(ps, t)
    ensures r[0].start == r[0].proc.arrival
    ensures forall i :: 0 < i < |r| ==> r[i].start == Max(r[i - 1].completion, r[i].proc.arrival)
    ensures forall i :: 0 <= i < |r| ==> r[i].completion == r[i].start + r[i].proc.burst
    ensures forall i :: 0 <= i < |r| ==>
      && Timed(r[i])
      && r[i].proc.arrival <= r[i].start
      && r[i].response == r[i].waiting
      && r[i].waiting >= 0
  {
    var sorted := SortByArrival(ps);
    forall t ensures ArrivingAt(sorted, t) == ArrivingAt(ps, t) {
      SortIsStable(ps, t);
    }
    var r := Run(sorted, sorted[0].arrival);
    assert Procs(r) == sorted;
    r
  }

  /** Re-running FCFS on its own output order reproduces the same schedule:
      the output is already in arrival order, so the stable sort keeps it. */
  lemma FcfsRerun(ps: seq<Process>)
    requires |ps| > 0
    ensures SimulateFcfs(Procs(SimulateFcfs(ps))) == SimulateFcfs(ps)
  {
    var sorted := SortByArrival(ps);
    assert Procs(SimulateFcfs(ps)) == sorted;
    SortOfSorted(sorted);
  }
}
