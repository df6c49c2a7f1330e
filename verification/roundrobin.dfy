/**
 * Round-robin scheduling (script.js:196-240). Each iteration filters the
 * queued processes that have arrived, jumps the clock to the earliest
 * queued arrival when there are none, and otherwise runs the FIRST arrived
 * process for one slice of at most the quantum, logging the slice on the
 * timeline. The process that ran is updated in place in the queue, but the
 * queue is then rotated, or shifted when the process is done, at its FRONT,
 * which is a different record whenever the front has not arrived yet.
 *
 * `Loop` models that code as written. `FixedLoop` is the evidently intended
 * loop, which moves the record that ran to the back of the queue or drops
 * it; the two agree whenever every queued process has arrived.
 */
module RoundRobin {
  import opened Processes

  /** The loop's variables: the queue of working copies, the clock, the
      timeline of slices so far and the results so far. */
  datatype RrState = RrState(queue: seq<Process>, clock: int, timeline: seq<Block>, results: seq<Finished>)

  /** What `simulateRR` hands back: the results and the timeline attached
      to them. */
  datatype Outcome = Outcome(results: seq<Finished>, timeline: seq<Block>)

  /** The work still owed to the queue, counting a non-positive remaining
      time as nothing. Every slice of a positive remaining time lowers it;
      this is what makes the loop terminate. */
  function Work(q: seq<Process>): nat {
    if q == [] then 0 else Max(q[0].remaining, 0) + Work(q[1..])
  }

  lemma {:induction false} WorkAppend(a: seq<Process>, b: seq<Process>)
    ensures Work(a + b) == Work(a) + Work(b)
  {
    if a == [] {
      assert a + b == b;
    } else {
      assert (a + b)[1..] == a[1..] + b;
      WorkAppend(a[1..], b);
    }
  }

  /** Replacing the record at `i` changes the work by the difference of the
      two records' contributions. */
  lemma WorkUpdate(q: seq<Process>, i: nat, p: Process)
    requires i < |q|
    ensures Work(q[i := p]) == Work(q) - Max(q[i].remaining, 0) + Max(p.remaining, 0)
  {
    assert q == q[..i] + [q[i]] + q[i + 1..];
    assert q[i := p] == q[..i] + [p] + q[i + 1..];
    WorkAppend(q[..i] + [q[i]], q[i + 1..]);
    WorkAppend(q[..i], [q[i]]);
    WorkAppend(q[..i] + [p], q[i + 1..]);
    WorkAppend(q[..i], [p]);
  }

  lemma {:induction false} WorkRemoveAt(q: seq<Process>, i: nat)
    requires i < |q|
    ensures Work(q) == Work(RemoveAt(q, i)) + Max(q[i].remaining, 0)
  {
    RemoveAtCons(q, i);
    if i > 0 {
      WorkRemoveAt(q[1..], i - 1);
      var r := RemoveAt(q[1..], i - 1);
      assert ([q[0]] + r)[1..] == r;
    }
  }

  /** `timeline.find(t => t.pid === pid)`: the first slice of the process. */
  function FirstBlock(tl: seq<Block>, pid: int): Option<Block> {
    if tl == [] then None
    else if tl[0].pid == pid then Some(tl[0])
    else FirstBlock(tl[1..], pid)
  }

  /** The search finds a slice exactly when the process has one, and then
      the earliest one. */
  lemma {:induction false} FirstBlockSpec(tl: seq<Block>, pid: int)
    ensures FirstBlock(tl, pid).Some? <==> exists k :: 0 <= k < |tl| && tl[k].pid == pid
    ensures FirstBlock(tl, pid).Some? ==>
      exists k :: 0 <= k < |tl| && tl[k] == FirstBlock(tl, pid).value
        && forall j :: 0 <= j < k ==> tl[j].pid != pid
  {
    if tl != [] && tl[0].pid != pid {
      FirstBlockSpec(tl[1..], pid);
      assert forall k :: 1 <= k < |tl| ==> tl[k] == tl[1..][k - 1];
      if FirstBlock(tl, pid).Some? {
        var k :| 0 <= k < |tl[1..]| && tl[1..][k] == FirstBlock(tl, pid).value
          && forall j :: 0 <= j < k ==> tl[1..][j].pid != pid;
        assert tl[k + 1] == FirstBlock(tl, pid).value;
        forall j | 0 <= j < k + 1
          ensures tl[j].pid != pid
        {
          if j > 0 {
            assert tl[j] == tl[1..][j - 1];
          }
        }
      }
    }
  }

  /** The slice just logged makes the search succeed. */
  lemma {:induction false} FirstBlockFound(tl: seq<Block>, b: Block)
    ensures FirstBlock(tl + [b], b.pid).Some?
  {
    if tl != [] {
      assert (tl + [b])[1..] == tl[1..] + [b];
      FirstBlockFound(tl[1..], b);
    }
  }

  /** The search after a slice is logged: an existing first slice stays
      the first; otherwise the new slice is the first when it is the
      process's own. */
  lemma {:induction false} FirstBlockAppend(tl: seq<Block>, b: Block, pid: int)
    ensures FirstBlock(tl + [b], pid) ==
      if FirstBlock(tl, pid).Some? then FirstBlock(tl, pid)
      else if b.pid == pid then Some(b) else None
  {
    if tl == [] {
      assert tl + [b] == [b];
    } else {
      assert (tl + [b])[1..] == tl[1..] + [b];
      FirstBlockAppend(tl[1..], b, pid);
    }
  }

  /** The latest slice of the process on the timeline. */
  function LastBlock(tl: seq<Block>, pid: int): Option<Block> {
    if tl == [] then None
    else if tl[|tl| - 1].pid == pid then Some(tl[|tl| - 1])
    else LastBlock(tl[..|tl| - 1], pid)
  }

  lemma LastBlockSnoc(tl: seq<Block>, b: Block, pid: int)
    ensures LastBlock(tl + [b], pid) == if b.pid == pid then Some(b) else LastBlock(tl, pid)
  {
    assert (tl + [b])[..|tl|] == tl;
  }

  /** `availableProcesses[0]`: the index of the first queued process that
      has arrived. */
  function Front(q: seq<Process>, clock: int): (i: nat)
    requires |Arrived(q, clock)| > 0
    ensures i < |q|
  {
    ArrivedSound(q, clock);
    Arrived(q, clock)[0]
  }

  /** `Math.min(timeQuantum, process.remainingTime)`. */
  function Slice(quantum: int, p: Process): int {
    Min(quantum, p.remaining)
  }

  /** The slice the process runs from `clock` on, as logged. */
  function SliceBlock(quantum: int, p: Process, clock: int): Block {
    Block(p.pid, clock, clock + Slice(quantum, p))
  }

  /** The working copy after the slice. */
  function Executed(quantum: int, p: Process): Process {
    p.(remaining := p.remaining - Slice(quantum, p))
  }

  /** With a positive quantum, a copy that is done has exactly nothing left:
      the slice never overshoots a remaining time. */
  lemma ExecutedDone(quantum: int, p: Process)
    requires quantum > 0
    ensures Executed(quantum, p).remaining >= 0 || p.remaining < 0
    ensures Executed(quantum, p).remaining <= 0 ==> Executed(quantum, p).remaining == 0
    ensures Executed(quantum, p).remaining > 0 ==> Slice(quantum, p) == quantum
  {
  }

  /** The result pushed for a finished copy: its first slice is its start. */
  function Completed(p: Process, tl: seq<Block>, clock: int): Finished
    requires FirstBlock(tl, p.pid).Some?
  {
    Finish(p, FirstBlock(tl, p.pid).value.start, clock)
  }

  /** One dispatching iteration AS WRITTEN (script.js:209-236): the first
      arrived record runs and is updated in place, then the queue's front is
      rotated to the back, or shifted off when the record that ran is done. */
  function Step(quantum: int, s: RrState): RrState
    requires |Arrived(s.queue, s.clock)| > 0
  {
    var i := Front(s.queue, s.clock);
    var p := s.queue[i];
    var b := SliceBlock(quantum, p, s.clock);
    var done := Executed(quantum, p);
    var u := s.queue[i := done];
    var tl := s.timeline + [b];
    FirstBlockFound(s.timeline, b);
    if done.remaining > 0 then RrState(u[1..] + [u[0]], b.end, tl, s.results)
    else RrState(u[1..], b.end, tl, s.results + [Completed(done, tl, b.end)])
  }

  /** The corrected iteration: the record that ran leaves its place and goes
      to the back of the queue, or leaves the queue when done. */
  function FixedStep(quantum: int, s: RrState): RrState
    requires |Arrived(s.queue, s.clock)| > 0
  {
    var i := Front(s.queue, s.clock);
    var p := s.queue[i];
    var b := SliceBlock(quantum, p, s.clock);
    var done := Executed(quantum, p);
    var rest := RemoveAt(s.queue, i);
    var tl := s.timeline + [b];
    FirstBlockFound(s.timeline, b);
    if done.remaining > 0 then RrState(rest + [done], b.end, tl, s.results)
    else RrState(rest, b.end, tl, s.results + [Completed(done, tl, b.end)])
  }

  /** The measure of the loop: an iteration either lowers the work owed, or
      keeps it and shortens the queue. */
  lemma StepShrinks(quantum: int, s: RrState)
    requires quantum > 0 && |Arrived(s.queue, s.clock)| > 0
    ensures Work(Step(quantum, s).queue) <= Work(s.queue)
    ensures Work(Step(quantum, s).queue) == Work(s.queue) ==> |Step(quantum, s).queue| < |s.queue|
  {
    var i := Front(s.queue, s.clock);
    var p := s.queue[i];
    var done := Executed(quantum, p);
    var u := s.queue[i := done];
    WorkUpdate(s.queue, i, done);
    assert u == [u[0]] + u[1..];
    if done.remaining > 0 {
      WorkAppend(u[1..], [u[0]]);
      assert Work([u[0]]) == Max(u[0].remaining, 0);
    }
  }

  lemma FixedStepShrinks(quantum: int, s: RrState)
    requires quantum > 0 && |Arrived(s.queue, s.clock)| > 0
    ensures Work(FixedStep(quantum, s).queue) <= Work(s.queue)
    ensures Work(FixedStep(quantum, s).queue) == Work(s.queue) ==> |FixedStep(quantum, s).queue| < |s.queue|
  {
    var i := Front(s.queue, s.clock);
    var done := Executed(quantum, s.queue[i]);
    WorkRemoveAt(s.queue, i);
    if done.remaining > 0 {
      WorkAppend(RemoveAt(s.queue, i), [done]);
      assert Work([done]) == Max(done.remaining, 0);
    }
  }

  /** The `while (processQueue.length > 0)` loop as written: it runs until
      the queue is empty and only ever appends to the timeline and to the
      results. */
  function Loop(quantum: int, s: RrState): (r: RrState)
    requires quantum > 0
    ensures r.queue == []
    ensures s.timeline <= r.timeline && s.results <= r.results
    ensures |s.queue| > 0 ==> |r.results| > |s.results|
    decreases Work(s.queue), |s.queue|, if |Arrived(s.queue, s.clock)| > 0 then 0 else 1
  {
    if |s.queue| == 0 then s
    else if |Arrived(s.queue, s.clock)| == 0 then
      IdleJump(s.queue, s.clock);
      Loop(quantum, s.(clock := MinArrival(s.queue)))
    else
      StepShrinks(quantum, s);
      Loop(quantum, Step(quantum, s))
  }

  /** The corrected loop; same shape, same measure. */
  function FixedLoop(quantum: int, s: RrState): (r: RrState)
    requires quantum > 0
    ensures r.queue == []
    ensures s.timeline <= r.timeline && s.results <= r.results
    ensures |s.queue| > 0 ==> |r.results| > |s.results|
    decreases Work(s.queue), |s.queue|, if |Arrived(s.queue, s.clock)| > 0 then 0 else 1
  {
    if |s.queue| == 0 then s
    else if |Arrived(s.queue, s.clock)| == 0 then
      IdleJump(s.queue, s.clock);
      FixedLoop(quantum, s.(clock := MinArrival(s.queue)))
    else
      FixedStepShrinks(quantum, s);
      FixedLoop(quantum, FixedStep(quantum, s))
  }

  /** Every result the loop emits carries the derived times. */
  lemma {:induction false} LoopTimed(quantum: int, s: RrState)
    requires quantum > 0
    requires forall k :: 0 <= k < |s.results| ==> Timed(s.results[k])
    ensures forall k :: 0 <= k < |Loop(quantum, s).results| ==> Timed(Loop(quantum, s).results[k])
    decreases Work(s.queue), |s.queue|, if |Arrived(s.queue, s.clock)| > 0 then 0 else 1
  {
    if |s.queue| == 0 {
    } else if |Arrived(s.queue, s.clock)| == 0 {
      IdleJump(s.queue, s.clock);
      LoopTimed(quantum, s.(clock := MinArrival(s.queue)));
    } else {
      StepShrinks(quantum, s);
      var n := Step(quantum, s);
      assert forall k :: 0 <= k < |n.results| ==> Timed(n.results[k]) by {
        if |n.results| > |s.results| {
          assert n.results == s.results + [n.results[|s.results|]];
        } else {
          assert n.results == s.results;
        }
      }
      LoopTimed(quantum, n);
    }
  }

  lemma {:induction false} FixedLoopTimed(quantum: int, s: RrState)
    requires quantum > 0
    requires forall k :: 0 <= k < |s.results| ==> Timed(s.results[k])
    ensures forall k :: 0 <= k < |FixedLoop(quantum, s).results| ==> Timed(FixedLoop(quantum, s).results[k])
    decreases Work(s.queue), |s.queue|, if |Arrived(s.queue, s.clock)| > 0 then 0 else 1
  {
    if |s.queue| == 0 {
    } else if |Arrived(s.queue, s.clock)| == 0 {
      IdleJump(s.queue, s.clock);
      FixedLoopTimed(quantum, s.(clock := MinArrival(s.queue)));
    } else {
      FixedStepShrinks(quantum, s);
      var n := FixedStep(quantum, s);
      assert forall k :: 0 <= k < |n.results| ==> Timed(n.results[k]) by {
        if |n.results| > |s.results| {
          assert n.results == s.results + [n.results[|s.results|]];
        } else {
          assert n.results == s.results;
        }
      }
      FixedLoopTimed(quantum, n);
    }
  }

  /** The start of a run: a copy of the process list and the clock at the
      earliest arrival. An empty list leaves the loop unentered. */
  function Start(ps: seq<Process>): RrState {
    RrState(ps, if |ps| == 0 then 0 else MinArrival(ps), [], [])
  }

  /** `simulateRR(timeQuantum)` as written. */
  function SimulateRR(ps: seq<Process>, quantum: int): (o: Outcome)
    requires quantum > 0
    ensures |ps| == 0 ==> o == Outcome([], [])
    ensures |ps| > 0 ==> |o.results| > 0
    ensures forall k :: 0 <= k < |o.results| ==> Timed(o.results[k])
    ensures ValidProcesses(ps) ==> forall k :: 0 <= k < |o.results| ==>
      && Reported(o.timeline, o.results[k])
      && o.results[k].response >= 0 && o.results[k].waiting >= 0
  {
    LoopTimed(quantum, Start(ps));
    RunTraced(ps, quantum);
    var r := Loop(quantum, Start(ps));
    Outcome(r.results, r.timeline)
  }

  /** `simulateRR(timeQuantum)` with the queue handling corrected. */
  function FixedSimulateRR(ps: seq<Process>, quantum: int): (o: Outcome)
    requires quantum > 0
    ensures |ps| == 0 ==> o == Outcome([], [])
    ensures |ps| > 0 ==> |o.results| > 0
    ensures forall k :: 0 <= k < |o.results| ==> Timed(o.results[k])
    ensures ValidProcesses(ps) ==> forall k :: 0 <= k < |o.results| ==>
      && Reported(o.timeline, o.results[k]) && Settled(o.timeline, o.results[k])
      && o.results[k].response >= 0 && o.results[k].waiting >= 0
  {
    FixedLoopTimed(quantum, Start(ps));
    FixedRunTraced(ps, quantum);
    var r := FixedLoop(quantum, Start(ps));
    Outcome(r.results, r.timeline)
  }

  // ---------------------------------------------------------------------
  // The as-written loop against the corrected one

  predicate AllArrived(q: seq<Process>, clock: int) {
    forall k :: 0 <= k < |q| ==> q[k].arrival <= clock
  }

  /** No queued copy has a negative remaining time, so no slice runs the
      clock backwards. */
  predicate NoDebt(q: seq<Process>) {
    forall k :: 0 <= k < |q| ==> q[k].remaining >= 0
  }

  /** When the front record has arrived, it is the first arrived one. */
  lemma FrontIsFirst(q: seq<Process>, clock: int)
    requires |q| > 0 && q[0].arrival <= clock
    ensures |Arrived(q, clock)| > 0 && Front(q, clock) == 0
  {
    ArrivedComplete(q, clock, 0);
    ArrivedIncreasing(q, clock);
    var a := Arrived(q, clock);
    var t :| 0 <= t < |a| && a[t] == 0;
    if t > 0 {
      assert a[0] < a[t];
    }
  }

  /** When the front record has arrived, the as-written iteration is the
      corrected one: the record that ran IS the front. */
  lemma StepMatchesFixed(quantum: int, s: RrState)
    requires |s.queue| > 0 && s.queue[0].arrival <= s.clock
    ensures |Arrived(s.queue, s.clock)| > 0
    ensures Step(quantum, s) == FixedStep(quantum, s)
  {
    FrontIsFirst(s.queue, s.clock);
    var done := Executed(quantum, s.queue[0]);
    var u := s.queue[0 := done];
    assert u[1..] == RemoveAt(s.queue, 0);
  }

  /** Once every queued process has arrived, the as-written loop and the
      corrected loop produce the same timeline and the same results. */
  lemma {:induction false} LoopMatchesFixed(quantum: int, s: RrState)
    requires quantum > 0 && AllArrived(s.queue, s.clock) && NoDebt(s.queue)
    ensures Loop(quantum, s) == FixedLoop(quantum, s)
    decreases Work(s.queue), |s.queue|
  {
    if |s.queue| > 0 {
      StepMatchesFixed(quantum, s);
      StepShrinks(quantum, s);
      var i := Front(s.queue, s.clock);
      var done := Executed(quantum, s.queue[i]);
      var next := FixedStep(quantum, s);
      RemoveAtFacts(s.queue, i);
      assert AllArrived(next.queue, next.clock) && NoDebt(next.queue) by {
        forall k | 0 <= k < |next.queue|
          ensures next.queue[k].arrival <= next.clock && next.queue[k].remaining >= 0
        {
          if k < |s.queue| - 1 {
            assert next.queue[k] == RemoveAt(s.queue, i)[k];
          } else {
            assert next.queue[k] == done;
          }
        }
      }
      LoopMatchesFixed(quantum, next);
    }
  }

  /** P1 is queued first but arrives after P2, whose whole burst fits in
      one slice. */
  predicate LateFront(quantum: int, p1: Process, p2: Process) {
    && quantum > 0
    && 0 < p2.burst <= quantum && p2.remaining == p2.burst
    && p2.arrival < p1.arrival
  }

  lemma LateFrontStart(quantum: int, p1: Process, p2: Process)
    requires LateFront(quantum, p1, p2)
    ensures Start([p1, p2]) == RrState([p1, p2], p2.arrival, [], [])
    ensures Arrived([p1, p2], p2.arrival) == [1]
  {
    var ps := [p1, p2];
    assert ps[1..] == [p2];
    assert MinArrival(ps) == p2.arrival;
    assert ArrivedBelow(ps, p2.arrival, 0) == [];
    assert ArrivedBelow(ps, p2.arrival, 1) == [];
    assert ArrivedBelow(ps, p2.arrival, 2) == [1];
  }

  lemma AsWrittenFirstStep(quantum: int, p1: Process, p2: Process)
    requires LateFront(quantum, p1, p2)
    ensures |Arrived(Start([p1, p2]).queue, Start([p1, p2]).clock)| > 0
    ensures var done := p2.(remaining := 0);
      var c := p2.arrival + p2.burst;
      Step(quantum, Start([p1, p2]))
        == RrState([done], c, [Block(p2.pid, p2.arrival, c)], [Finish(done, p2.arrival, c)])
  {
    LateFrontStart(quantum, p1, p2);
    var done := p2.(remaining := 0);
    var c := p2.arrival + p2.burst;
    assert Front([p1, p2], p2.arrival) == 1;
    assert FirstBlock([Block(p2.pid, p2.arrival, c)], p2.pid) == Some(Block(p2.pid, p2.arrival, c));
    assert [p1, p2][1 := done][1..] == [done];
  }

  lemma AsWrittenSecondStep(p: Process, tl: seq<Block>, rs: seq<Finished>, quantum: int, clock: int)
    requires quantum > 0 && p.remaining == 0 && p.arrival <= clock
    requires FirstBlock(tl, p.pid).Some?
    ensures |Arrived([p], clock)| > 0
    ensures Step(quantum, RrState([p], clock, tl, rs))
      == RrState([], clock, tl + [Block(p.pid, clock, clock)], rs + [Finish(p, FirstBlock(tl, p.pid).value.start, clock)])
  {
    FrontIsFirst([p], clock);
    FirstBlockAppend(tl, Block(p.pid, clock, clock), p.pid);
    assert [p][0 := p] == [p];
  }

  /** The defect: P2 runs first and finishes, but the shift drops the front
      record P1, which never runs; P2's finished copy stays queued, runs an
      empty slice and is reported a second time. */
  lemma AsWrittenLosesProcess(quantum: int, p1: Process, p2: Process)
    requires LateFront(quantum, p1, p2)
    ensures var done := p2.(remaining := 0);
      var c := p2.arrival + p2.burst;
      SimulateRR([p1, p2], quantum)
        == Outcome([Finish(done, p2.arrival, c), Finish(done, p2.arrival, c)],
                   [Block(p2.pid, p2.arrival, c), Block(p2.pid, c, c)])
  {
    var done := p2.(remaining := 0);
    var c := p2.arrival + p2.burst;
    LateFrontStart(quantum, p1, p2);
    AsWrittenFirstStep(quantum, p1, p2);
    var tl := [Block(p2.pid, p2.arrival, c)];
    assert FirstBlock(tl, p2.pid) == Some(Block(p2.pid, p2.arrival, c));
    AsWrittenSecondStep(done, tl, [Finish(done, p2.arrival, c)], quantum, c);
    var s1 := Step(quantum, Start([p1, p2]));
    var s2 := Step(quantum, s1);
    assert Loop(quantum, s2) == s2;
    assert Loop(quantum, s1) == s2;
    assert Loop(quantum, Start([p1, p2])) == s2;
  }

  /** So the as-written simulator breaks what the corrected one keeps (see
      `FixedCompletesEach`): the reported ids are not the listed ids. */
  lemma AsWrittenMiscounts(quantum: int, p1: Process, p2: Process)
    requires LateFront(quantum, p1, p2) && p1.pid != p2.pid
    ensures multiset(ResultPids(SimulateRR([p1, p2], quantum).results)) != multiset(Pids([p1, p2]))
  {
    AsWrittenLosesProcess(quantum, p1, p2);
    var rs := SimulateRR([p1, p2], quantum).results;
    assert ResultPids(rs) == [p2.pid, p2.pid];
    assert Pids([p1, p2]) == [p1.pid, p2.pid];
    assert multiset(ResultPids(rs))[p1.pid] == 0;
    assert multiset(Pids([p1, p2]))[p1.pid] == 1;
  }

  /** A quantum of 0, which the source does not reject, makes no progress:
      with every remaining time positive, an iteration logs an empty slice,
      leaves the clock, the results and the owed work as they were, and
      only rotates the queue, so the loop never ends. */
  lemma ZeroQuantumStalls(s: RrState)
    requires |Arrived(s.queue, s.clock)| > 0
    requires forall k :: 0 <= k < |s.queue| ==> s.queue[k].remaining > 0
    ensures Step(0, s).clock == s.clock && Step(0, s).results == s.results
    ensures Step(0, s).timeline == s.timeline + [Block(s.queue[Front(s.queue, s.clock)].pid, s.clock, s.clock)]
    ensures Step(0, s).queue == s.queue[1..] + [s.queue[0]]
    ensures Work(Step(0, s).queue) == Work(s.queue)
  {
    var q := s.queue;
    var i := Front(q, s.clock);
    assert Executed(0, q[i]) == q[i];
    assert q[i := q[i]] == q;
    assert q == [q[0]] + q[1..];
    WorkAppend(q[1..], [q[0]]);
    WorkAppend([q[0]], q[1..]);
  }

  // ---------------------------------------------------------------------
  // What the corrected loop guarantees

  /** The ids of the processes the results were made for, in result order. */
  function ResultPids(rs: seq<Finished>): seq<int> {
    Pids(Procs(rs))
  }

  lemma ResultPidsSnoc(rs: seq<Finished>, f: Finished)
    ensures ResultPids(rs + [f]) == ResultPids(rs) + [f.proc.pid]
  {
    ProcsAppend(rs, [f]);
    PidsAppend(Procs(rs), Procs([f]));
  }

  lemma PidsRemoveAt(q: seq<Process>, i: nat)
    requires i < |q|
    ensures multiset(Pids(RemoveAt(q, i))) + multiset{q[i].pid} == multiset(Pids(q))
  {
    var ids := Pids(q);
    RemoveAtFacts(q, i);
    assert Pids(RemoveAt(q, i)) == ids[..i] + ids[i + 1..];
    assert ids == ids[..i] + [ids[i]] + ids[i + 1..];
  }

  /** The ids still queued or already reported, counted with multiplicity. */
  function Accounted(s: RrState): multiset<int> {
    multiset(ResultPids(s.results)) + multiset(Pids(s.queue))
  }

  /** A corrected iteration moves an id from the queue to the results or
      keeps it queued; no id is lost or duplicated. */
  lemma FixedStepAccounts(quantum: int, s: RrState)
    requires quantum > 0 && |Arrived(s.queue, s.clock)| > 0
    ensures Accounted(FixedStep(quantum, s)) == Accounted(s)
  {
    var i := Front(s.queue, s.clock);
    var done := Executed(quantum, s.queue[i]);
    var rest := RemoveAt(s.queue, i);
    var n := FixedStep(quantum, s);
    PidsRemoveAt(s.queue, i);
    if done.remaining > 0 {
      PidsAppend(rest, [done]);
    } else {
      ResultPidsSnoc(s.results, n.results[|n.results| - 1]);
      assert n.results == s.results + [n.results[|n.results| - 1]];
    }
  }

  lemma {:induction false} FixedLoopAccounts(quantum: int, s: RrState)
    requires quantum > 0
    ensures multiset(ResultPids(FixedLoop(quantum, s).results)) == Accounted(s)
    decreases Work(s.queue), |s.queue|, if |Arrived(s.queue, s.clock)| > 0 then 0 else 1
  {
    if |s.queue| == 0 {
    } else if |Arrived(s.queue, s.clock)| == 0 {
      IdleJump(s.queue, s.clock);
      FixedLoopAccounts(quantum, s.(clock := MinArrival(s.queue)));
    } else {
      FixedStepShrinks(quantum, s);
      FixedStepAccounts(quantum, s);
      FixedLoopAccounts(quantum, FixedStep(quantum, s));
    }
  }

  /** Every process on the list is reported exactly once by the corrected
      simulator: the reported ids are the listed ids, with multiplicity. */
  lemma FixedCompletesEach(ps: seq<Process>, quantum: int)
    requires quantum > 0
    ensures multiset(ResultPids(FixedSimulateRR(ps, quantum).results)) == multiset(Pids(ps))
  {
    FixedLoopAccounts(quantum, Start(ps));
    assert ResultPids([]) == [];
  }

  /** The processor time the timeline gives the process `pid`. */
  function Spent(tl: seq<Block>, pid: int): int {
    if tl == [] then 0
    else Spent(tl[..|tl| - 1], pid) + (if tl[|tl| - 1].pid == pid then tl[|tl| - 1].end - tl[|tl| - 1].start else 0)
  }

  lemma SpentSnoc(tl: seq<Block>, b: Block, pid: int)
    ensures Spent(tl + [b], pid) == Spent(tl, pid) + (if b.pid == pid then b.end - b.start else 0)
  {
    assert (tl + [b])[..|tl|] == tl;
  }

  /** The time the queue still owes the process `pid`. */
  function Owed(q: seq<Process>, pid: int): int {
    if q == [] then 0 else (if q[0].pid == pid then q[0].remaining else 0) + Owed(q[1..], pid)
  }

  lemma {:induction false} OwedAppend(a: seq<Process>, b: seq<Process>, pid: int)
    ensures Owed(a + b, pid) == Owed(a, pid) + Owed(b, pid)
  {
    if a == [] {
      assert a + b == b;
    } else {
      assert (a + b)[1..] == a[1..] + b;
      OwedAppend(a[1..], b, pid);
    }
  }

  lemma {:induction false} OwedRemoveAt(q: seq<Process>, i: nat, pid: int)
    requires i < |q|
    ensures Owed(q, pid) == Owed(RemoveAt(q, i), pid) + (if q[i].pid == pid then q[i].remaining else 0)
  {
    RemoveAtCons(q, i);
    if i > 0 {
      OwedRemoveAt(q[1..], i - 1, pid);
      var r := RemoveAt(q[1..], i - 1);
      assert ([q[0]] + r)[1..] == r;
    }
  }

  /** With distinct ids, the time owed to a listed process is its own
      remaining time. */
  lemma {:induction false} OwedUnique(q: seq<Process>, k: nat)
    requires k < |q| && UniquePids(q)
    ensures Owed(q, q[k].pid) == q[k].remaining
  {
    if k == 0 {
      OwedNone(q[1..], q[0].pid);
    } else {
      assert UniquePids(q[1..]) by {
        forall a, b | 0 <= a < b < |q[1..]|
          ensures q[1..][a].pid != q[1..][b].pid
        {
          assert q[1..][a] == q[a + 1] && q[1..][b] == q[b + 1];
        }
      }
      assert q[1..][k - 1] == q[k];
      OwedUnique(q[1..], k - 1);
    }
  }

  lemma {:induction false} OwedNone(q: seq<Process>, pid: int)
    requires forall j :: 0 <= j < |q| ==> q[j].pid != pid
    ensures Owed(q, pid) == 0
  {
    if q != [] {
      assert forall j :: 0 <= j < |q[1..]| ==> q[1..][j] == q[j + 1];
      OwedNone(q[1..], pid);
    }
  }

  /** A corrected iteration moves exactly the time of its slice from what
      is owed to what is spent. */
  lemma FixedStepConserves(quantum: int, s: RrState, pid: int)
    requires quantum > 0 && |Arrived(s.queue, s.clock)| > 0
    ensures Spent(FixedStep(quantum, s).timeline, pid) + Owed(FixedStep(quantum, s).queue, pid)
      == Spent(s.timeline, pid) + Owed(s.queue, pid)
  {
    var i := Front(s.queue, s.clock);
    var p := s.queue[i];
    var b := SliceBlock(quantum, p, s.clock);
    var done := Executed(quantum, p);
    var rest := RemoveAt(s.queue, i);
    ExecutedDone(quantum, p);
    SpentSnoc(s.timeline, b, pid);
    OwedRemoveAt(s.queue, i, pid);
    if done.remaining > 0 {
      OwedAppend(rest, [done], pid);
      assert Owed([done], pid) == if done.pid == pid then done.remaining else 0;
    }
  }

  lemma {:induction false} FixedLoopConserves(quantum: int, s: RrState, pid: int)
    requires quantum > 0
    ensures Spent(FixedLoop(quantum, s).timeline, pid) == Spent(s.timeline, pid) + Owed(s.queue, pid)
    decreases Work(s.queue), |s.queue|, if |Arrived(s.queue, s.clock)| > 0 then 0 else 1
  {
    if |s.queue| == 0 {
    } else if |Arrived(s.queue, s.clock)| == 0 {
      IdleJump(s.queue, s.clock);
      FixedLoopConserves(quantum, s.(clock := MinArrival(s.queue)), pid);
    } else {
      FixedStepShrinks(quantum, s);
      FixedStepConserves(quantum, s, pid);
      FixedLoopConserves(quantum, FixedStep(quantum, s), pid);
    }
  }

  /** Every listed process gets exactly its burst time on the corrected
      timeline. */
  lemma FixedRunsEachBurst(ps: seq<Process>, quantum: int, k: nat)
    requires quantum > 0 && k < |ps| && ValidProcesses(ps)
    ensures Spent(FixedSimulateRR(ps, quantum).timeline, ps[k].pid) == ps[k].burst
  {
    FixedLoopConserves(quantum, Start(ps), ps[k].pid);
    OwedUnique(ps, k);
  }

  /** A timeline of slices that never overlap, in time order, each lasting
      at least one unit and at most the quantum. */
  predicate Ordered(tl: seq<Block>, quantum: int) {
    && (forall j, k :: 0 <= j < k < |tl| ==> tl[j].end <= tl[k].start)
    && (forall k :: 0 <= k < |tl| ==> tl[k].start < tl[k].end <= tl[k].start + quantum)
  }

  /** Results in completion order. */
  predicate ByCompletion(rs: seq<Finished>) {
    forall j, k :: 0 <= j < k < |rs| ==> rs[j].completion <= rs[k].completion
  }

  /** The corrected loop's invariant: every queued copy is still owed time,
      the timeline and the results are in order, and nothing logged lies
      after the clock. */
  predicate Paced(s: RrState, quantum: int) {
    && (forall k :: 0 <= k < |s.queue| ==> s.queue[k].remaining > 0)
    && Ordered(s.timeline, quantum)
    && (forall k :: 0 <= k < |s.timeline| ==> s.timeline[k].end <= s.clock)
    && ByCompletion(s.results)
    && (forall k :: 0 <= k < |s.results| ==> s.results[k].completion <= s.clock)
  }

  lemma FixedStepPaced(quantum: int, s: RrState)
    requires quantum > 0 && |Arrived(s.queue, s.clock)| > 0 && Paced(s, quantum)
    ensures Paced(FixedStep(quantum, s), quantum)
    ensures FixedStep(quantum, s).clock > s.clock
  {
    var i := Front(s.queue, s.clock);
    var p := s.queue[i];
    var b := SliceBlock(quantum, p, s.clock);
    var done := Executed(quantum, p);
    var rest := RemoveAt(s.queue, i);
    var n := FixedStep(quantum, s);
    RemoveAtFacts(s.queue, i);
    assert n.timeline == s.timeline + [b];
    forall k | 0 <= k < |n.queue|
      ensures n.queue[k].remaining > 0
    {
      if k < |rest| {
        assert n.queue[k] == rest[k];
      }
    }
    assert n.clock == b.end;
    if done.remaining <= 0 {
      var f := n.results[|n.results| - 1];
      assert n.results == s.results + [f];
      assert f.completion == b.end;
    }
  }

  lemma {:induction false} FixedLoopPaced(quantum: int, s: RrState)
    requires quantum > 0 && Paced(s, quantum)
    ensures Ordered(FixedLoop(quantum, s).timeline, quantum)
    ensures ByCompletion(FixedLoop(quantum, s).results)
    decreases Work(s.queue), |s.queue|, if |Arrived(s.queue, s.clock)| > 0 then 0 else 1
  {
    if |s.queue| == 0 {
    } else if |Arrived(s.queue, s.clock)| == 0 {
      IdleJump(s.queue, s.clock);
      FixedLoopPaced(quantum, s.(clock := MinArrival(s.queue)));
    } else {
      FixedStepShrinks(quantum, s);
      FixedStepPaced(quantum, s);
      FixedLoopPaced(quantum, FixedStep(quantum, s));
    }
  }

  /** On a list as `addProcess` builds it, the corrected timeline is a
      sequence of non-overlapping slices of one to `quantum` units, and the
      results come out in completion order. */
  lemma FixedTimelineOrdered(ps: seq<Process>, quantum: int)
    requires quantum > 0 && ValidProcesses(ps)
    ensures Ordered(FixedSimulateRR(ps, quantum).timeline, quantum)
    ensures ByCompletion(FixedSimulateRR(ps, quantum).results)
  {
    assert forall k :: 0 <= k < |ps| ==> ValidProcess(ps[k]);
    FixedLoopPaced(quantum, Start(ps));
  }

  /** When every listed process arrives at the same time, the as-written
      simulator is the corrected one, so it too reports every process once
      and gives each exactly its burst time. */
  lemma SimultaneousArrivals(ps: seq<Process>, quantum: int, k: nat)
    requires quantum > 0 && k < |ps| && ValidProcesses(ps)
    requires forall j :: 0 <= j < |ps| ==> ps[j].arrival == ps[0].arrival
    ensures SimulateRR(ps, quantum) == FixedSimulateRR(ps, quantum)
    ensures multiset(ResultPids(SimulateRR(ps, quantum).results)) == multiset(Pids(ps))
    ensures Spent(SimulateRR(ps, quantum).timeline, ps[k].pid) == ps[k].burst
  {
    MinArrivalFacts(ps);
    assert AllArrived(ps, MinArrival(ps));
    assert forall j :: 0 <= j < |ps| ==> ValidProcess(ps[j]);
    LoopMatchesFixed(quantum, Start(ps));
    FixedCompletesEach(ps, quantum);
    FixedRunsEachBurst(ps, quantum, k);
  }

  // ---------------------------------------------------------------------
  // Results against the timeline

  /** Some slice of the process ends at `t`. */
  predicate EndsAt(tl: seq<Block>, pid: int, t: int) {
    exists j :: 0 <= j < |tl| && tl[j].pid == pid && tl[j].end == t
  }

  /** What a queued working copy keeps about its slices: it never owes a
      negative time; before its first slice it owes its whole burst; after
      it, it had arrived when that slice began, and the time since then
      covers the work it has been given. */
  predicate Tracked(tl: seq<Block>, clock: int, p: Process) {
    && 0 <= p.remaining
    && (FirstBlock(tl, p.pid).None? ==> p.remaining == p.burst)
    && (FirstBlock(tl, p.pid).Some? ==>
          && p.arrival <= FirstBlock(tl, p.pid).value.start
          && p.burst - p.remaining <= clock - FirstBlock(tl, p.pid).value.start)
  }

  /** A result as the timeline backs it: its start is its process's first
      slice, which began no earlier than its arrival, its completion is the
      end of one of its slices, and the two lie at least its burst apart. */
  predicate Reported(tl: seq<Block>, f: Finished) {
    && FirstBlock(tl, f.proc.pid).Some?
    && f.start == FirstBlock(tl, f.proc.pid).value.start
    && f.proc.arrival <= f.start
    && f.start + f.proc.burst <= f.completion
    && EndsAt(tl, f.proc.pid, f.completion)
  }

  /** The invariant of both loops on a list as `addProcess` builds it. */
  predicate Traced(s: RrState) {
    && UniquePids(s.queue)
    && (forall i :: 0 <= i < |s.queue| ==> Tracked(s.timeline, s.clock, s.queue[i]))
    && (forall k :: 0 <= k < |s.results| ==> Reported(s.timeline, s.results[k]))
  }

  /** The slice both iterations run: the copy that ran is tracked against
      the longer timeline and the later clock, so is every other queued
      copy, every earlier result stays backed by the timeline, and a copy
      that is done is reported as the timeline backs it. */
  lemma SliceTraced(quantum: int, s: RrState)
    requires quantum > 0 && |Arrived(s.queue, s.clock)| > 0 && Traced(s)
    ensures var i := Front(s.queue, s.clock);
      var b := SliceBlock(quantum, s.queue[i], s.clock);
      var done := Executed(quantum, s.queue[i]);
      var tl := s.timeline + [b];
      var u := s.queue[i := done];
      && done.pid == s.queue[i].pid
      && (forall m :: 0 <= m < |u| ==> u[m].pid == s.queue[m].pid)
      && (forall m :: 0 <= m < |u| ==> Tracked(tl, b.end, u[m]))
      && (forall k :: 0 <= k < |s.results| ==> Reported(tl, s.results[k]))
      && FirstBlock(tl, done.pid).Some?
      && (done.remaining <= 0 ==> Reported(tl, Completed(done, tl, b.end)))
  {
    var i := Front(s.queue, s.clock);
    var p := s.queue[i];
    var b := SliceBlock(quantum, p, s.clock);
    var done := Executed(quantum, p);
    var tl := s.timeline + [b];
    var u := s.queue[i := done];
    ArrivedSound(s.queue, s.clock);
    assert p.arrival <= s.clock;
    assert Tracked(s.timeline, s.clock, p);
    FirstBlockAppend(s.timeline, b, p.pid);
    assert Tracked(tl, b.end, done);
    forall m | 0 <= m < |u|
      ensures Tracked(tl, b.end, u[m])
    {
      if m != i {
        assert u[m] == s.queue[m] && Tracked(s.timeline, s.clock, s.queue[m]);
        FirstBlockAppend(s.timeline, b, u[m].pid);
      }
    }
    forall k | 0 <= k < |s.results|
      ensures Reported(tl, s.results[k])
    {
      var f := s.results[k];
      assert Reported(s.timeline, f);
      FirstBlockAppend(s.timeline, b, f.proc.pid);
      var j :| 0 <= j < |s.timeline| && s.timeline[j].pid == f.proc.pid && s.timeline[j].end == f.completion;
      assert tl[j] == s.timeline[j];
    }
    assert tl[|s.timeline|] == b;
  }

  /** The as-written iteration keeps the invariant: the rotation and the
      shift only reorder or drop tracked copies. */
  lemma StepTraced(quantum: int, s: RrState)
    requires quantum > 0 && |Arrived(s.queue, s.clock)| > 0 && Traced(s)
    ensures Traced(Step(quantum, s))
  {
    SliceTraced(quantum, s);
    var i := Front(s.queue, s.clock);
    var b := SliceBlock(quantum, s.queue[i], s.clock);
    var done := Executed(quantum, s.queue[i]);
    var tl := s.timeline + [b];
    var u := s.queue[i := done];
    var n := Step(quantum, s);
    var w := if done.remaining > 0 then u[1..] + [u[0]] else u[1..];
    assert n.queue == w && n.timeline == tl && n.clock == b.end;
    forall j | 0 <= j < |w|
      ensures w[j] == u[j + 1 - (if j + 1 == |u| then |u| else 0)]
    {
    }
    forall j, k | 0 <= j < k < |w|
      ensures w[j].pid != w[k].pid
    {
      var j' := j + 1 - (if j + 1 == |u| then |u| else 0);
      var k' := k + 1 - (if k + 1 == |u| then |u| else 0);
      assert u[j'].pid == s.queue[j'].pid && u[k'].pid == s.queue[k'].pid;
    }
    if done.remaining <= 0 {
      assert n.results == s.results + [Completed(done, tl, b.end)];
    }
  }

  /** The corrected iteration keeps the invariant: the copy that ran goes to
      the back or is reported, every other copy keeps its place. */
  lemma FixedStepTraced(quantum: int, s: RrState)
    requires quantum > 0 && |Arrived(s.queue, s.clock)| > 0 && Traced(s)
    ensures Traced(FixedStep(quantum, s))
  {
    SliceTraced(quantum, s);
    var i := Front(s.queue, s.clock);
    var b := SliceBlock(quantum, s.queue[i], s.clock);
    var done := Executed(quantum, s.queue[i]);
    var tl := s.timeline + [b];
    var u := s.queue[i := done];
    var rest := RemoveAt(s.queue, i);
    var n := FixedStep(quantum, s);
    var w := if done.remaining > 0 then rest + [done] else rest;
    assert n.queue == w && n.timeline == tl && n.clock == b.end;
    RemoveAtFacts(s.queue, i);
    forall j | 0 <= j < |w|
      ensures w[j] == u[if j == |rest| then i else if j < i then j else j + 1]
    {
    }
    forall j, k | 0 <= j < k < |w|
      ensures w[j].pid != w[k].pid
    {
      var j' := if j == |rest| then i else if j < i then j else j + 1;
      var k' := if k == |rest| then i else if k < i then k else k + 1;
      assert u[j'].pid == s.queue[j'].pid && u[k'].pid == s.queue[k'].pid;
    }
    if done.remaining <= 0 {
      assert n.results == s.results + [Completed(done, tl, b.end)];
    }
  }

  lemma {:induction false} LoopTraced(quantum: int, s: RrState)
    requires quantum > 0 && Traced(s)
    ensures Traced(Loop(quantum, s))
    decreases Work(s.queue), |s.queue|, if |Arrived(s.queue, s.clock)| > 0 then 0 else 1
  {
    if |s.queue| == 0 {
    } else if |Arrived(s.queue, s.clock)| == 0 {
      IdleJump(s.queue, s.clock);
      LoopTraced(quantum, s.(clock := MinArrival(s.queue)));
    } else {
      StepShrinks(quantum, s);
      StepTraced(quantum, s);
      LoopTraced(quantum, Step(quantum, s));
    }
  }

  lemma {:induction false} FixedLoopTraced(quantum: int, s: RrState)
    requires quantum > 0 && Traced(s)
    ensures Traced(FixedLoop(quantum, s))
    decreases Work(s.queue), |s.queue|, if |Arrived(s.queue, s.clock)| > 0 then 0 else 1
  {
    if |s.queue| == 0 {
    } else if |Arrived(s.queue, s.clock)| == 0 {
      IdleJump(s.queue, s.clock);
      FixedLoopTraced(quantum, s.(clock := MinArrival(s.queue)));
    } else {
      FixedStepShrinks(quantum, s);
      FixedStepTraced(quantum, s);
      FixedLoopTraced(quantum, FixedStep(quantum, s));
    }
  }

  /** A list as `addProcess` builds it starts the invariant. */
  lemma StartTraced(ps: seq<Process>)
    requires ValidProcesses(ps)
    ensures Traced(Start(ps))
  {
    forall i | 0 <= i < |ps|
      ensures Tracked([], Start(ps).clock, ps[i])
    {
      assert ValidProcess(ps[i]);
    }
  }

  /** A result whose completion is the end of its process's last slice. */
  predicate Settled(tl: seq<Block>, f: Finished) {
    LastBlock(tl, f.proc.pid).Some? && LastBlock(tl, f.proc.pid).value.end == f.completion
  }

  /** The corrected loop's bookkeeping of finished processes: none is still
      queued, and each ran for the last time when it completed. */
  predicate Closed(s: RrState) {
    && (forall k, i :: 0 <= k < |s.results| && 0 <= i < |s.queue| ==> s.results[k].proc.pid != s.queue[i].pid)
    && (forall k :: 0 <= k < |s.results| ==> Settled(s.timeline, s.results[k]))
  }

  /** A corrected iteration keeps the bookkeeping: the slice belongs to a
      queued process, so no finished process gets another one. */
  lemma FixedStepClosed(quantum: int, s: RrState)
    requires quantum > 0 && |Arrived(s.queue, s.clock)| > 0 && Traced(s) && Closed(s)
    ensures Closed(FixedStep(quantum, s))
  {
    var i := Front(s.queue, s.clock);
    var p := s.queue[i];
    var b := SliceBlock(quantum, p, s.clock);
    var done := Executed(quantum, p);
    var tl := s.timeline + [b];
    var rest := RemoveAt(s.queue, i);
    var n := FixedStep(quantum, s);
    assert n.timeline == tl;
    RemoveAtFacts(s.queue, i);
    forall j | 0 <= j < |rest|
      ensures rest[j].pid != p.pid
      ensures forall k :: 0 <= k < |s.results| ==> s.results[k].proc.pid != rest[j].pid
    {
      var j' := if j < i then j else j + 1;
      assert rest[j] == s.queue[j'];
    }
    forall k | 0 <= k < |s.results|
      ensures Settled(tl, s.results[k])
    {
      LastBlockSnoc(s.timeline, b, s.results[k].proc.pid);
    }
    LastBlockSnoc(s.timeline, b, p.pid);
    FirstBlockFound(s.timeline, b);
    if done.remaining > 0 {
      assert n.queue == rest + [done] && n.results == s.results;
    } else {
      assert n.queue == rest && n.results == s.results + [Completed(done, tl, b.end)];
    }
  }

  lemma {:induction false} FixedLoopClosed(quantum: int, s: RrState)
    requires quantum > 0 && Traced(s) && Closed(s)
    ensures Closed(FixedLoop(quantum, s))
    decreases Work(s.queue), |s.queue|, if |Arrived(s.queue, s.clock)| > 0 then 0 else 1
  {
    if |s.queue| == 0 {
    } else if |Arrived(s.queue, s.clock)| == 0 {
      IdleJump(s.queue, s.clock);
      FixedLoopClosed(quantum, s.(clock := MinArrival(s.queue)));
    } else {
      FixedStepShrinks(quantum, s);
      FixedStepTraced(quantum, s);
      FixedStepClosed(quantum, s);
      FixedLoopClosed(quantum, FixedStep(quantum, s));
    }
  }

  /** On a list as `addProcess` builds it, every as-written result is backed
      by the timeline. */
  lemma RunTraced(ps: seq<Process>, quantum: int)
    requires quantum > 0
    ensures ValidProcesses(ps) ==> Traced(Loop(quantum, Start(ps)))
  {
    if ValidProcesses(ps) {
      StartTraced(ps);
      LoopTraced(quantum, Start(ps));
    }
  }

  /** The same for the corrected loop, which moreover completes each
      process at the end of its last slice. */
  lemma FixedRunTraced(ps: seq<Process>, quantum: int)
    requires quantum > 0
    ensures ValidProcesses(ps) ==>
      Traced(FixedLoop(quantum, Start(ps))) && Closed(FixedLoop(quantum, Start(ps)))
  {
    if ValidProcesses(ps) {
      StartTraced(ps);
      FixedLoopTraced(quantum, Start(ps));
      FixedLoopClosed(quantum, Start(ps));
    }
  }
}
