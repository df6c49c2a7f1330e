/**
 * The scheduler's shared data model: the process record kept in the
 * process list, the result record every simulator emits, the round-robin
 * timeline block, and the queue scans the simulators share (which queued
 * processes have arrived, the earliest queued arrival, removal by index).
 */
module Processes {

  /** A value that may be missing; `None` stands for JavaScript's `NaN`. */
  datatype Option<+T> = None | Some(value: T)

  /** A process as the process list holds it. `remaining` is the work the
      round-robin simulator still owes it; it starts equal to `burst`. */
  datatype Process = Process(pid: int, arrival: int, burst: int, priority: int, remaining: int)

  /** A completed process: a copy of the record it was dispatched from,
      plus its timing. */
  datatype Finished = Finished(proc: Process, start: int, completion: int,
                               turnaround: int, waiting: int, response: int)

  /** One round-robin slice of the timeline. */
  datatype Block = Block(pid: int, start: int, end: int)

  function Min(a: int, b: int): int { if a < b then a else b }

  function Max(a: int, b: int): int { if a < b then b else a }

  /** What `addProcess` guarantees of every record it stores. */
  predicate ValidProcess(p: Process) {
    p.burst > 0 && p.remaining == p.burst
  }

  predicate UniquePids(ps: seq<Process>) {
    forall i, j :: 0 <= i < j < |ps| ==> ps[i].pid != ps[j].pid
  }

  /** A process list as the id counter and the validation of `addProcess`
      leave it: valid records with pairwise distinct ids. */
  predicate ValidProcesses(ps: seq<Process>) {
    (forall i :: 0 <= i < |ps| ==> ValidProcess(ps[i])) && UniquePids(ps)
  }

  /** The derived times every simulator stores in a result. */
  predicate Timed(f: Finished) {
    && f.turnaround == f.completion - f.proc.arrival
    && f.waiting == f.turnaround - f.proc.burst
    && f.response == f.start - f.proc.arrival
  }

  /** The result record for `p` dispatched at `start` and done at `completion`. */
  function Finish(p: Process, start: int, completion: int): Finished {
    Finished(p, start, completion, completion - p.arrival, completion - p.arrival - p.burst, start - p.arrival)
  }

  /** The process records the results were made from, in result order. */
  function Procs(rs: seq<Finished>): (ps: seq<Process>)
    ensures |ps| == |rs|
    ensures forall i :: 0 <= i < |rs| ==> ps[i] == rs[i].proc
  {
    seq(|rs|, i requires 0 <= i < |rs| => rs[i].proc)
  }

  lemma ProcsAppend(a: seq<Finished>, b: seq<Finished>)
    ensures Procs(a + b) == Procs(a) + Procs(b)
  {
  }

  lemma ProcsCons(f: Finished, rs: seq<Finished>)
    ensures Procs([f] + rs) == [f.proc] + Procs(rs)
    ensures multiset(Procs([f] + rs)) == multiset{f.proc} + multiset(Procs(rs))
  {
    ProcsAppend([f], rs);
    assert Procs([f]) == [f.proc];
  }

  /** The ids of a list of records, in order. */
  function Pids(ps: seq<Process>): (ids: seq<int>)
    ensures |ids| == |ps|
    ensures forall i :: 0 <= i < |ps| ==> ids[i] == ps[i].pid
  {
    seq(|ps|, i requires 0 <= i < |ps| => ps[i].pid)
  }

  lemma PidsAppend(a: seq<Process>, b: seq<Process>)
    ensures Pids(a + b) == Pids(a) + Pids(b)
  {
  }

  /** The indices below `n` of the queued processes that have arrived by
      `clock`, in queue order. The source filters the queue into a list of
      references to the very records in the queue; an index stands for
      such a reference. */
  function ArrivedBelow(q: seq<Process>, clock: int, n: nat): seq<nat>
    requires n <= |q|
  {
    if n == 0 then []
    else ArrivedBelow(q, clock, n - 1) + (if q[n - 1].arrival <= clock then [n - 1] else [])
  }

  lemma {:induction false} ArrivedBelowSound(q: seq<Process>, clock: int, n: nat)
    requires n <= |q|
    ensures forall j :: 0 <= j < |ArrivedBelow(q, clock, n)| ==>
      ArrivedBelow(q, clock, n)[j] < n && q[ArrivedBelow(q, clock, n)[j]].arrival <= clock
  {
    if n > 0 {
      ArrivedBelowSound(q, clock, n - 1);
      var prefix := ArrivedBelow(q, clock, n - 1);
      var r := ArrivedBelow(q, clock, n);
      forall j | 0 <= j < |r|
        ensures r[j] < n && q[r[j]].arrival <= clock
      {
        if j < |prefix| {
          assert r[j] == prefix[j];
        } else {
          assert r[j] == n - 1;
        }
      }
    }
  }

  lemma {:induction false} ArrivedBelowComplete(q: seq<Process>, clock: int, n: nat, i: nat)
    requires i < n <= |q| && q[i].arrival <= clock
    ensures i in ArrivedBelow(q, clock, n)
  {
    if i < n - 1 {
      ArrivedBelowComplete(q, clock, n - 1, i);
    }
  }

  predicate Increasing(s: seq<nat>) {
    forall j, k :: 0 <= j < k < |s| ==> s[j] < s[k]
  }

  lemma {:induction false} ArrivedBelowIncreasing(q: seq<Process>, clock: int, n: nat)
    requires n <= |q|
    ensures Increasing(ArrivedBelow(q, clock, n))
  {
    if n > 0 {
      ArrivedBelowIncreasing(q, clock, n - 1);
      ArrivedBelowSound(q, clock, n - 1);
      var prefix := ArrivedBelow(q, clock, n - 1);
      var r := ArrivedBelow(q, clock, n);
      forall j, k | 0 <= j < k < |r|
        ensures r[j] < r[k]
      {
        if k < |prefix| {
          assert r[j] == prefix[j];
          assert r[k] == prefix[k];
        } else {
          ArrivedBelowSound(q, clock, n - 1);
          assert r[j] == prefix[j] && prefix[j] < n - 1;
          assert r[k] == n - 1;
        }
      }
    }
  }

  /** `processQueue.filter(p => p.arrivalTime <= currentTime)` (script.js:120). */
  function Arrived(q: seq<Process>, clock: int): seq<nat> {
    ArrivedBelow(q, clock, |q|)
  }

  /** Only queued processes that have arrived are in the filtered list. */
  lemma ArrivedSound(q: seq<Process>, clock: int)
    ensures forall j :: 0 <= j < |Arrived(q, clock)| ==>
      Arrived(q, clock)[j] < |q| && q[Arrived(q, clock)[j]].arrival <= clock
  {
    ArrivedBelowSound(q, clock, |q|);
    assert Arrived(q, clock) == ArrivedBelow(q, clock, |q|);
  }

  /** Every queued process that has arrived is in the filtered list. */
  lemma ArrivedComplete(q: seq<Process>, clock: int, i: nat)
    requires i < |q| && q[i].arrival <= clock
    ensures i in Arrived(q, clock)
  {
    ArrivedBelowComplete(q, clock, |q|, i);
  }

  /** The filtered list keeps queue order. */
  lemma ArrivedIncreasing(q: seq<Process>, clock: int)
    ensures Increasing(Arrived(q, clock))
  {
    ArrivedBelowIncreasing(q, clock, |q|);
    assert Arrived(q, clock) == ArrivedBelow(q, clock, |q|);
  }

  /** `Math.min(...processQueue.map(p => p.arrivalTime))` on a non-empty queue. */
  function MinArrival(q: seq<Process>): int
    requires |q| > 0
  {
    if |q| == 1 then q[0].arrival
    else
      var rest := MinArrival(q[1..]);
      if q[0].arrival < rest then q[0].arrival else rest
  }

  /** The earliest arrival is a lower bound of the queued arrivals and is
      the arrival of some queued process. */
  lemma {:induction false} MinArrivalFacts(q: seq<Process>)
    requires |q| > 0
    ensures forall i :: 0 <= i < |q| ==> MinArrival(q) <= q[i].arrival
    ensures exists i :: 0 <= i < |q| && q[i].arrival == MinArrival(q)
  {
    if |q| > 1 {
      MinArrivalFacts(q[1..]);
      assert forall i :: 1 <= i < |q| ==> q[i] == q[1..][i - 1];
      var j :| 0 <= j < |q[1..]| && q[1..][j].arrival == MinArrival(q[1..]);
      assert q[j + 1].arrival == MinArrival(q[1..]);
      if q[0].arrival < MinArrival(q[1..]) {
        assert q[0].arrival == MinArrival(q);
      } else {
        assert q[j + 1].arrival == MinArrival(q);
      }
    } else {
      assert q[0].arrival == MinArrival(q);
    }
  }

  /** The idle jump: when nothing queued has arrived, the clock moves to the
      earliest queued arrival, which lies strictly after it, and at that
      time something has arrived. */
  lemma IdleJump(q: seq<Process>, clock: int)
    requires |q| > 0 && |Arrived(q, clock)| == 0
    ensures MinArrival(q) > clock
    ensures |Arrived(q, MinArrival(q))| > 0
  {
    MinArrivalFacts(q);
    var i :| 0 <= i < |q| && q[i].arrival == MinArrival(q);
    if q[i].arrival <= clock {
      ArrivedComplete(q, clock, i);
      assert false;
    }
    ArrivedComplete(q, MinArrival(q), i);
  }

  /** `queue.splice(i, 1)`: the queue without its `i`-th record, the rest in order. */
  function RemoveAt(q: seq<Process>, i: nat): (r: seq<Process>)
    requires i < |q|
    ensures |r| == |q| - 1
  {
    q[..i] + q[i + 1..]
  }

  /** The splice peeled one record at a time: what recursive proofs about
      it unfold. */
  lemma RemoveAtCons(q: seq<Process>, i: nat)
    requires i < |q|
    ensures i == 0 ==> RemoveAt(q, i) == q[1..]
    ensures i > 0 ==> RemoveAt(q, i) == [q[0]] + RemoveAt(q[1..], i - 1)
  {
    if i > 0 {
      assert q[1..][..i - 1] == q[1..i];
      assert q[1..][i..] == q[i + 1..];
      assert q[..i] == [q[0]] + q[1..i];
    }
  }

  /** What the splice leaves: the records before `i` in place, those after
      it shifted down by one, and the same records less one copy of `q[i]`. */
  lemma RemoveAtFacts(q: seq<Process>, i: nat)
    requires i < |q|
    ensures var r := RemoveAt(q, i);
      && (forall j {:trigger r[j]} :: 0 <= j < i ==> r[j] == q[j])
      && (forall j {:trigger r[j]} :: i <= j < |r| ==> r[j] == q[j + 1])
      && multiset(r) + multiset{q[i]} == multiset(q)
  {
    assert q == q[..i] + [q[i]] + q[i + 1..];
  }

  lemma RemoveAtKeepsValid(q: seq<Process>, i: nat)
    requires i < |q| && ValidProcesses(q)
    ensures ValidProcesses(RemoveAt(q, i))
  {
    var r := RemoveAt(q, i);
    RemoveAtFacts(q, i);
    forall j, k | 0 <= j < k < |r|
      ensures r[j].pid != r[k].pid
    {
      var j' := if j < i then j else j + 1;
      var k' := if k < i then k else k + 1;
      assert r[j] == q[j'] && r[k] == q[k'] && j' < k';
    }
    forall j | 0 <= j < |r|
      ensures ValidProcess(r[j])
    {
      var j' := if j < i then j else j + 1;
      assert r[j] == q[j'];
    }
  }
}
