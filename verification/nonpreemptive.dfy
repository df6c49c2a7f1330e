/**
 * Shortest-job-first and priority scheduling, both non-preemptive. The
 * source writes the same loop twice (script.js:114-153 and 155-194),
 * differing only in the key compared; here it is one loop over a `Policy`.
 * Each round filters the queued processes that have arrived, jumps the
 * clock to the earliest queued arrival when there are none, and otherwise
 * runs the arrived process with the smallest key to completion.
 */
module NonPreemptive {
  import opened Processes

  datatype Policy = ShortestJob | HighestPriority

  /** The compared field: burst time for SJF, priority value for Priority
      (a smaller value is more urgent). */
  function Key(policy: Policy, p: Process): int {
    match policy
    case ShortestJob => p.burst
    case HighestPriority => p.priority
  }

  /** One step of `reduce((prev, curr) => prev.key < curr.key ? prev : curr)`
      from position `j` on, `best` being the index kept so far. */
  function ReduceFrom(keys: seq<int>, best: nat, j: nat): (k: nat)
    requires best < j <= |keys|
    ensures best <= k < |keys|
    decreases |keys| - j
  {
    if j == |keys| then best
    else ReduceFrom(keys, if keys[best] < keys[j] then best else j, j + 1)
  }

  lemma {:induction false} ReduceFromFacts(keys: seq<int>, best: nat, j: nat)
    requires best < j <= |keys|
    requires forall t :: 0 <= t < j ==> keys[best] <= keys[t]
    requires forall t :: best < t < j ==> keys[best] < keys[t]
    ensures var k := ReduceFrom(keys, best, j);
      && (forall t :: 0 <= t < |keys| ==> keys[k] <= keys[t])
      && (forall t :: k < t < |keys| ==> keys[k] < keys[t])
    decreases |keys| - j
  {
    if j < |keys| {
      ReduceFromFacts(keys, if keys[best] < keys[j] then best else j, j + 1);
    }
  }

  /** The position `reduce` with a strict `<` settles on. */
  function LastMinimum(keys: seq<int>): (k: nat)
    requires |keys| > 0
    ensures k < |keys|
  {
    ReduceFrom(keys, 0, 1)
  }

  /** The position is a minimal key, and on equal keys the current element
      replaces the kept one, so the LAST minimal position wins. */
  lemma LastMinimumFacts(keys: seq<int>)
    requires |keys| > 0
    ensures var k := LastMinimum(keys);
      && (forall t :: 0 <= t < |keys| ==> keys[k] <= keys[t])
      && (forall t :: k < t < |keys| ==> keys[k] < keys[t])
  {
    ReduceFromFacts(keys, 0, 1);
  }

  /** `processQueue.findIndex(p => p.pid === pid)`: the first index
      holding the id. */
  function FindPid(q: seq<Process>, pid: int): (i: nat)
    requires exists j :: 0 <= j < |q| && q[j].pid == pid
    ensures i < |q| && q[i].pid == pid
    ensures forall j :: 0 <= j < i ==> q[j].pid != pid
  {
    if q[0].pid == pid then 0
    else
      assert exists j :: 0 <= j < |q[1..]| && q[1..][j].pid == pid by {
        var j :| 0 <= j < |q| && q[j].pid == pid;
        assert q[1..][j - 1] == q[j];
      }
      1 + FindPid(q[1..], pid)
  }

  /** The first record with the id: with distinct ids, the only one. */
  lemma FindPidUnique(q: seq<Process>, j: nat)
    requires UniquePids(q) && j < |q|
    ensures FindPid(q, q[j].pid) == j
  {
  }

  /** The keys of the arrived processes, in queue order. */
  function ArrivedKeys(policy: Policy, q: seq<Process>, avail: seq<nat>): (keys: seq<int>)
    requires forall t :: 0 <= t < |avail| ==> avail[t] < |q|
    ensures |keys| == |avail|
  {
    seq(|avail|, t requires 0 <= t < |avail| => Key(policy, q[avail[t]]))
  }

  /** The queue index the dispatcher removes (script.js:120, 127-132): the
      reduce picks among the arrived records, then the first queued record
      with the pick's id is spliced out. */
  function Select(policy: Policy, q: seq<Process>, clock: int): (idx: nat)
    requires |Arrived(q, clock)| > 0
    ensures idx < |q|
  {
    ArrivedSound(q, clock);
    var avail := Arrived(q, clock);
    var k := LastMinimum(ArrivedKeys(policy, q, avail));
    FindPid(q, q[avail[k]].pid)
  }

  /** With distinct ids the removed record is the reduce's pick: it has
      arrived, no arrived record has a smaller key, and every arrived record
      queued behind it has a strictly larger key, so among equal keys the
      one queued last is chosen. */
  lemma SelectChoice(policy: Policy, q: seq<Process>, clock: int, idx: nat)
    requires |Arrived(q, clock)| > 0 && UniquePids(q)
    requires idx == Select(policy, q, clock)
    ensures idx < |q| && q[idx].arrival <= clock
    ensures forall i :: 0 <= i < |q| && q[i].arrival <= clock ==> Key(policy, q[idx]) <= Key(policy, q[i])
    ensures forall i :: idx < i < |q| && q[i].arrival <= clock ==> Key(policy, q[idx]) < Key(policy, q[i])
  {
    ArrivedSound(q, clock);
    var avail := Arrived(q, clock);
    var keys := ArrivedKeys(policy, q, avail);
    var k := LastMinimum(keys);
    LastMinimumFacts(keys);
    FindPidUnique(q, avail[k]);
    assert idx == avail[k];
    ArrivedIncreasing(q, clock);
    forall i | 0 <= i < |q| && q[i].arrival <= clock
      ensures Key(policy, q[idx]) <= Key(policy, q[i])
      ensures idx < i ==> Key(policy, q[idx]) < Key(policy, q[i])
    {
      ArrivedComplete(q, clock, i);
      var t :| 0 <= t < |avail| && avail[t] == i;
      assert keys[t] == Key(policy, q[i]);
      if idx < i {
        assert k < t;
      }
    }
  }

  /** A result of a process that ran from start to completion without a
      break: the derived times hold, and waiting and response coincide. */
  predicate Uninterrupted(f: Finished) {
    && Timed(f)
    && f.completion == f.start + f.proc.burst
    && f.response == f.waiting
  }

  /** What a run of the loop over the queue `q` delivers: one result per
      queued record, each record used once, each ran without a break. */
  predicate Delivers(q: seq<Process>, r: seq<Finished>) {
    Covers(q, r) && AllUninterrupted(r)
  }

  predicate Covers(q: seq<Process>, r: seq<Finished>) {
    |r| == |q| && multiset(Procs(r)) == multiset(q)
  }

  predicate AllUninterrupted(r: seq<Finished>) {
    forall i :: 0 <= i < |r| ==> Uninterrupted(r[i])
  }

  lemma DeliversCons(q: seq<Process>, idx: nat, f: Finished, rest: seq<Finished>, r: seq<Finished>)
    requires idx < |q| && f.proc == q[idx] && Uninterrupted(f)
    requires Delivers(RemoveAt(q, idx), rest)
    requires r == [f] + rest
    ensures Delivers(q, r)
  {
    ProcsCons(f, rest);
    RemoveAtFacts(q, idx);
    assert forall i :: 0 < i < |r| ==> r[i] == rest[i - 1];
  }

  /** The schedule a run produces from `clock` on: nobody starts before the
      clock or before arriving, runs do not overlap and come in time order,
      and whenever a process is dispatched, every process dispatched after
      it that had already arrived has a key at least as large. */
  predicate Scheduled(policy: Policy, clock: int, r: seq<Finished>) {
    && (forall i :: 0 <= i < |r| ==> clock <= r[i].start && r[i].proc.arrival <= r[i].start)
    && (forall i, j :: 0 <= i < j < |r| ==> r[i].completion <= r[j].start)
    && (forall i, j :: 0 <= i < j < |r| && r[j].proc.arrival <= r[i].start ==>
          Key(policy, r[i].proc) <= Key(policy, r[j].proc))
  }

  lemma ScheduledEarlier(policy: Policy, c1: int, c2: int, r: seq<Finished>)
    requires c1 <= c2 && Scheduled(policy, c2, r)
    ensures Scheduled(policy, c1, r)
  {
  }

  /** A dispatching round extends the schedule of the rest of the run. */
  lemma ScheduledCons(policy: Policy, q: seq<Process>, idx: nat, clock: int, rest: seq<Finished>, r: seq<Finished>)
    requires idx < |q| && q[idx].arrival <= clock && q[idx].burst > 0
    requires forall i :: 0 <= i < |q| && q[i].arrival <= clock ==> Key(policy, q[idx]) <= Key(policy, q[i])
    requires Covers(RemoveAt(q, idx), rest)
    requires Scheduled(policy, clock + q[idx].burst, rest)
    requires r == [Finish(q[idx], clock, clock + q[idx].burst)] + rest
    ensures Scheduled(policy, clock, r)
  {
    var f := r[0];
    assert forall j :: 0 < j < |r| ==> r[j] == rest[j - 1];
    forall i | 0 <= i < |r|
      ensures clock <= r[i].start && r[i].proc.arrival <= r[i].start
    {
      if i > 0 {
        assert clock + q[idx].burst <= rest[i - 1].start;
      }
    }
    forall i, j | 0 <= i < j < |r|
      ensures r[i].completion <= r[j].start
    {
      if i > 0 {
        assert rest[i - 1].completion <= rest[j - 1].start;
      } else {
        assert clock + q[idx].burst <= rest[j - 1].start;
      }
    }
    RemoveAtFacts(q, idx);
    forall i, j | 0 <= i < j < |r| && r[j].proc.arrival <= r[i].start
      ensures Key(policy, r[i].proc) <= Key(policy, r[j].proc)
    {
      if i > 0 {
        assert Key(policy, rest[i - 1].proc) <= Key(policy, rest[j - 1].proc);
      } else {
        assert Procs(rest)[j - 1] == r[j].proc;
        assert r[j].proc in multiset(RemoveAt(q, idx));
        assert r[j].proc in multiset(q);
        var m :| 0 <= m < |q| && q[m] == r[j].proc;
      }
    }
  }

  /** The clock the `i`-th dispatch of a run from `clock` sees: `clock`
      itself for the first, the previous completion after that. */
  function ClockBefore(clock: int, r: seq<Finished>, i: nat): int
    requires i < |r|
  {
    if i == 0 then clock else r[i - 1].completion
  }

  /** The run never idles beyond the idle jump: every dispatch starts at
      the clock it sees, or, when nothing queued had arrived by then, at its
      own arrival, which is the earliest of the arrivals still to run. */
  predicate Prompt(clock: int, r: seq<Finished>) {
    forall i :: 0 <= i < |r| ==>
      && r[i].start == Max(ClockBefore(clock, r, i), r[i].proc.arrival)
      && (r[i].proc.arrival > ClockBefore(clock, r, i) ==>
            forall j :: i < j < |r| ==> r[i].proc.arrival <= r[j].proc.arrival)
  }

  /** A dispatch at the clock of an arrived process, followed by a prompt
      run from its completion, is a prompt run. */
  lemma PromptCons(clock: int, f: Finished, rest: seq<Finished>)
    requires f.start == clock && f.proc.arrival <= clock
    requires Prompt(f.completion, rest)
    ensures Prompt(clock, [f] + rest)
  {
    var r := [f] + rest;
    forall i | 0 < i < |r|
      ensures r[i] == rest[i - 1] && ClockBefore(clock, r, i) == ClockBefore(f.completion, rest, i - 1)
    {
      if i > 1 {
        assert r[i - 1] == rest[i - 2];
      }
    }
    forall i | 0 <= i < |r|
      ensures r[i].start == Max(ClockBefore(clock, r, i), r[i].proc.arrival)
      ensures r[i].proc.arrival > ClockBefore(clock, r, i) ==>
        forall j :: i < j < |r| ==> r[i].proc.arrival <= r[j].proc.arrival
    {
      if i > 0 {
        assert forall j :: i < j < |r| ==> r[j] == rest[j - 1];
      }
    }
  }

  /** `a` is queued ahead of `b`. */
  predicate QueuedBefore(q: seq<Process>, a: Process, b: Process) {
    exists m, n :: 0 <= m < n < |q| && q[m] == a && q[n] == b
  }

  /** The splice keeps the order of the records it leaves. */
  lemma QueuedBeforeRemoveAt(q: seq<Process>, idx: nat, a: Process, b: Process)
    requires idx < |q| && QueuedBefore(RemoveAt(q, idx), a, b)
    ensures QueuedBefore(q, a, b)
  {
    var q' := RemoveAt(q, idx);
    RemoveAtFacts(q, idx);
    var k, l :| 0 <= k < l < |q'| && q'[k] == a && q'[l] == b;
    var m := if k < idx then k else k + 1;
    var n := if l < idx then l else l + 1;
    assert q[m] == a && q[n] == b;
  }

  /** The tie rule of the strict-`<` reduce over a whole run: when a later
      dispatch had already arrived by an earlier one's start and has the
      same key, it is queued ahead of it, so the earlier dispatch was the
      last of the tied processes in queue order. */
  predicate LastOnTies(policy: Policy, q: seq<Process>, r: seq<Finished>) {
    forall i, j ::
      (0 <= i < j < |r| && r[j].proc.arrival <= r[i].start && Key(policy, r[i].proc) == Key(policy, r[j].proc))
      ==> QueuedBefore(q, r[j].proc, r[i].proc)
  }

  /** A record left after the pick that had arrived by the pick's start
      and shares its key is queued ahead of the pick. */
  lemma TieAheadOfPick(policy: Policy, q: seq<Process>, idx: nat, clock: int, p: Process)
    requires idx < |q|
    requires forall i :: idx < i < |q| && q[i].arrival <= clock ==> Key(policy, q[idx]) < Key(policy, q[i])
    requires p in multiset(RemoveAt(q, idx)) && p.arrival <= clock && Key(policy, p) == Key(policy, q[idx])
    ensures QueuedBefore(q, p, q[idx])
  {
    var q' := RemoveAt(q, idx);
    RemoveAtFacts(q, idx);
    var k :| 0 <= k < |q'| && q'[k] == p;
    var m := if k < idx then k else k + 1;
    assert q[m] == p;
  }

  /** A dispatching round keeps the tie rule: the pick is the last arrived
      record with its key, and the rest of the run keeps its queue order
      across the splice. */
  lemma TiesCons(policy: Policy, q: seq<Process>, idx: nat, clock: int, rest: seq<Finished>, r: seq<Finished>)
    requires idx < |q|
    requires forall i :: idx < i < |q| && q[i].arrival <= clock ==> Key(policy, q[idx]) < Key(policy, q[i])
    requires Covers(RemoveAt(q, idx), rest) && LastOnTies(policy, RemoveAt(q, idx), rest)
    requires r == [Finish(q[idx], clock, clock + q[idx].burst)] + rest
    ensures LastOnTies(policy, q, r)
  {
    forall i, j | 0 <= i < j < |r| && r[j].proc.arrival <= r[i].start
        && Key(policy, r[i].proc) == Key(policy, r[j].proc)
      ensures QueuedBefore(q, r[j].proc, r[i].proc)
    {
      assert r[j] == rest[j - 1];
      if i == 0 {
        assert Procs(rest)[j - 1] == r[j].proc;
        TieAheadOfPick(policy, q, idx, clock, r[j].proc);
      } else {
        assert r[i] == rest[i - 1];
        QueuedBeforeRemoveAt(q, idx, r[j].proc, r[i].proc);
      }
    }
  }

  /** Two processes arriving together with equal bursts: running the one
      queued first, first, breaks the tie rule; the source runs the one
      queued last. */
  lemma FirstSeenTieRejected(a: Process, b: Process)
    requires a.arrival == b.arrival && a.burst == b.burst && a != b
    ensures !LastOnTies(ShortestJob, [a, b], [Finish(a, a.arrival, a.arrival + a.burst), Finish(b, a.arrival + a.burst, a.arrival + 2 * a.burst)])
  {
    var r := [Finish(a, a.arrival, a.arrival + a.burst), Finish(b, a.arrival + a.burst, a.arrival + 2 * a.burst)];
    assert r[1].proc.arrival <= r[0].start && Key(ShortestJob, r[0].proc) == Key(ShortestJob, r[1].proc);
    forall m, n | 0 <= m < n < |[a, b]|
      ensures !([a, b][m] == b && [a, b][n] == a)
    {
      assert m == 0 && n == 1;
    }
  }

  /** An idle round: the clock jumps to the earliest queued arrival, and
      the run from there is a run from here. */
  lemma IdleRound(policy: Policy, q: seq<Process>, clock: int, r: seq<Finished>)
    requires |q| > 0 && |Arrived(q, clock)| == 0 && Covers(q, r)
    requires ValidProcesses(q) ==> Scheduled(policy, MinArrival(q), r) && Prompt(MinArrival(q), r)
    ensures ValidProcesses(q) ==> Scheduled(policy, clock, r) && Prompt(clock, r)
  {
    IdleJump(q, clock);
    if ValidProcesses(q) {
      ScheduledEarlier(policy, clock, MinArrival(q), r);
      MinArrivalFacts(q);
      forall j | 0 <= j < |r|
        ensures MinArrival(q) <= r[j].proc.arrival
      {
        assert Procs(r)[j] == r[j].proc;
        assert r[j].proc in multiset(q);
        var m :| 0 <= m < |q| && q[m] == r[j].proc;
      }
      if |r| > 0 {
        assert ClockBefore(clock, r, 0) < ClockBefore(MinArrival(q), r, 0) <= r[0].proc.arrival;
      }
    }
  }

  /** A dispatching round: the selected record, run from the current clock
      to completion, followed by the run of the rest of the queue, delivers
      the whole queue and extends the schedule. */
  lemma DispatchRound(policy: Policy, q: seq<Process>, clock: int, idx: nat, rest: seq<Finished>)
    requires |Arrived(q, clock)| > 0 && idx == Select(policy, q, clock)
    requires Delivers(RemoveAt(q, idx), rest)
    requires ValidProcesses(RemoveAt(q, idx)) ==>
      && Scheduled(policy, clock + q[idx].burst, rest) && Prompt(clock + q[idx].burst, rest)
      && LastOnTies(policy, RemoveAt(q, idx), rest)
    ensures var r := [Finish(q[idx], clock, clock + q[idx].burst)] + rest;
      && Delivers(q, r)
      && (ValidProcesses(q) ==> Scheduled(policy, clock, r) && Prompt(clock, r) && LastOnTies(policy, q, r))
  {
    var r := [Finish(q[idx], clock, clock + q[idx].burst)] + rest;
    DeliversCons(q, idx, r[0], rest, r);
    if ValidProcesses(q) {
      RemoveAtKeepsValid(q, idx);
      SelectChoice(policy, q, clock, idx);
      ScheduledCons(policy, q, idx, clock, rest, r);
      PromptCons(clock, r[0], rest);
      TiesCons(policy, q, idx, clock, rest, r);
    }
  }

  /** The dispatch loop (script.js:119-150 and 160-191), from a queue and a
      clock to the results in dispatch order. An idle round only moves the
      clock; a dispatching round removes one process and moves the clock to
      its completion. Every run delivers the whole queue, and on a valid
      queue its results form a greedy schedule from the clock on that
      starts every dispatch as early as the idle jump allows. */
  function Run(policy: Policy, q: seq<Process>, clock: int): (r: seq<Finished>)
    ensures Delivers(q, r)
    ensures ValidProcesses(q) ==> Scheduled(policy, clock, r)
    ensures ValidProcesses(q) ==> Prompt(clock, r)
    ensures ValidProcesses(q) ==> LastOnTies(policy, q, r)
    decreases |q|, if |Arrived(q, clock)| > 0 then 0 else 1
  {
    if |q| == 0 then []
    else if |Arrived(q, clock)| == 0 then
      IdleJump(q, clock);
      var r := Run(policy, q, MinArrival(q));
      IdleRound(policy, q, clock, r);
      r
    else
      var idx := Select(policy, q, clock);
      var rest := Run(policy, RemoveAt(q, idx), clock + q[idx].burst);
      DispatchRound(policy, q, clock, idx, rest);
      [Finish(q[idx], clock, clock + q[idx].burst)] + rest
  }

  /** `simulateSJF` / `simulatePriority`: the clock starts at the earliest
      arrival; an empty list yields no results (the loop never runs). */
  function Simulate(policy: Policy, ps: seq<Process>): (r: seq<Finished>)
    ensures Delivers(ps, r)
    ensures |ps| > 0 && ValidProcesses(ps) ==> Scheduled(policy, MinArrival(ps), r)
    ensures |ps| > 0 && ValidProcesses(ps) ==> Prompt(MinArrival(ps), r)
    ensures ValidProcesses(ps) ==> LastOnTies(policy, ps, r)
  {
    if |ps| == 0 then [] else Run(policy, ps, MinArrival(ps))
  }

  function SimulateSjf(ps: seq<Process>): seq<Finished> {
    Simulate(ShortestJob, ps)
  }

  function SimulatePriority(ps: seq<Process>): seq<Finished> {
    Simulate(HighestPriority, ps)
  }
}
