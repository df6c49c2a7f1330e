/**
 * The process list the simulators read: adding a validated process under
 * the next id, and deleting by id. The list and the id counter, globals
 * in the source (script.js:1-2), are threaded here as an explicit state.
 */
module Registry {
  import opened Processes

  /** The three form fields as `parseInt` reads them; `None` is `NaN`. */
  datatype ProcessInput = ProcessInput(arrival: Option<int>, burst: Option<int>, priority: Option<int>)

  /** The process list and the counter the next id is taken from. */
  datatype State = State(processes: seq<Process>, nextPid: int)

  /** `addProcess` either stores a record or alerts and changes nothing. */
  datatype AddOutcome = Added(state: State) | Rejected

  /** The state at page load: no processes, ids start at 1. */
  function Initial(): State {
    State([], 1)
  }

  /** The page-load state is where the invariant starts. */
  lemma InitialWellFormed()
    ensures WellFormed(Initial())
  {
  }

  /** The invariant the add and delete operations keep: valid records,
      distinct positive ids, all below the counter. */
  predicate WellFormed(s: State) {
    && ValidProcesses(s.processes)
    && s.nextPid >= 1
    && forall i :: 0 <= i < |s.processes| ==> 1 <= s.processes[i].pid < s.nextPid
  }

  /** `parseInt(...) || 1`: a missing (`NaN`) or zero priority becomes 1;
      any other number, negative ones included, is kept. */
  function NormalPriority(priority: Option<int>): (r: int)
    ensures r != 0
    ensures priority.None? || priority.value == 0 ==> r == 1
    ensures priority.Some? && priority.value != 0 ==> r == priority.value
  {
    match priority
    case Some(v) => if v != 0 then v else 1
    case None => 1
  }

  /** `addProcess`: rejects a missing arrival, a missing burst or a burst
      that is not positive (a negative arrival is accepted); otherwise
      appends a record under the counter's id and bumps the counter. */
  function AddProcess(s: State, input: ProcessInput): (r: AddOutcome)
    ensures r.Rejected? <==> input.arrival.None? || input.burst.None? || input.burst.value <= 0
    ensures r.Added? ==>
      && r.state.nextPid == s.nextPid + 1
      && |r.state.processes| == |s.processes| + 1
      && r.state.processes[..|s.processes|] == s.processes
      && var p := r.state.processes[|s.processes|];
         && p.pid == s.nextPid
         && p.arrival == input.arrival.value
         && p.burst == input.burst.value
         && p.remaining == p.burst
         && p.priority == NormalPriority(input.priority)
  {
    if input.arrival.None? || input.burst.None? || input.burst.value <= 0 then Rejected
    else
      var b := input.burst.value;
      var p := Process(s.nextPid, input.arrival.value, b, NormalPriority(input.priority), b);
      assert (s.processes + [p])[..|s.processes|] == s.processes;
      Added(State(s.processes + [p], s.nextPid + 1))
  }

  /** `processes.filter(p => p.pid !== pid)`. */
  function Without(ps: seq<Process>, pid: int): (r: seq<Process>)
    ensures forall i :: 0 <= i < |r| ==> r[i].pid != pid
    ensures |r| <= |ps|
  {
    if ps == [] then []
    else (if ps[0].pid == pid then [] else [ps[0]]) + Without(ps[1..], pid)
  }

  /** Each record with another id keeps its number of copies; those with
      the id are gone. */
  lemma {:induction false} WithoutCounts(ps: seq<Process>, pid: int)
    ensures forall p :: multiset(Without(ps, pid))[p] == if p.pid == pid then 0 else multiset(ps)[p]
  {
    if ps != [] {
      WithoutCounts(ps[1..], pid);
      assert ps == [ps[0]] + ps[1..];
    }
  }

  /** `deleteProcess`: drops exactly the records with the given id; the
      counter is not touched, so a deleted id is never handed out again. */
  function DeleteProcess(s: State, pid: int): (r: State)
    ensures r.nextPid == s.nextPid
    ensures forall i :: 0 <= i < |r.processes| ==> r.processes[i].pid != pid
    ensures forall p :: multiset(r.processes)[p] == if p.pid == pid then 0 else multiset(s.processes)[p]
  {
    WithoutCounts(s.processes, pid);
    State(Without(s.processes, pid), s.nextPid)
  }

  /** Deleting keeps the order of what remains: it works piecewise over a
      concatenation. */
  lemma {:induction false} WithoutAppend(a: seq<Process>, b: seq<Process>, pid: int)
    ensures Without(a + b, pid) == Without(a, pid) + Without(b, pid)
  {
    if a == [] {
      assert a + b == b;
    } else {
      assert (a + b)[0] == a[0];
      assert (a + b)[1..] == a[1..] + b;
      WithoutAppend(a[1..], b, pid);
    }
  }

  /** Deleting an id nobody has leaves the list exactly as it was. */
  lemma {:induction false} WithoutAbsent(ps: seq<Process>, pid: int)
    requires forall i :: 0 <= i < |ps| ==> ps[i].pid != pid
    ensures Without(ps, pid) == ps
  {
    if ps != [] {
      WithoutAbsent(ps[1..], pid);
      assert ps == [ps[0]] + ps[1..];
    }
  }

  lemma AddKeepsWellFormed(s: State, input: ProcessInput)
    requires WellFormed(s)
    ensures AddProcess(s, input).Added? ==> WellFormed(AddProcess(s, input).state)
  {
  }

  lemma DeleteKeepsWellFormed(s: State, pid: int)
    requires WellFormed(s)
    ensures WellFormed(DeleteProcess(s, pid))
  {
    var r := DeleteProcess(s, pid);
    forall i | 0 <= i < |r.processes|
      ensures ValidProcess(r.processes[i]) && 1 <= r.processes[i].pid < r.nextPid
    {
      assert r.processes[i] in multiset(s.processes);
    }
    forall i, j | 0 <= i < j < |r.processes|
      ensures r.processes[i].pid != r.processes[j].pid
    {
      WithoutUnique(s.processes, pid, i, j);
    }
  }

  lemma {:induction false} WithoutUnique(ps: seq<Process>, pid: int, i: nat, j: nat)
    requires UniquePids(ps)
    requires i < j < |Without(ps, pid)|
    ensures Without(ps, pid)[i].pid != Without(ps, pid)[j].pid
  {
    var r := Without(ps, pid);
    assert ps == [ps[0]] + ps[1..];
    var tail := Without(ps[1..], pid);
    assert UniquePids(ps[1..]) by {
      forall a, b | 0 <= a < b < |ps[1..]|
        ensures ps[1..][a].pid != ps[1..][b].pid
      {
        assert ps[1..][a] == ps[a + 1] && ps[1..][b] == ps[b + 1];
      }
    }
    if ps[0].pid == pid {
      WithoutUnique(ps[1..], pid, i, j);
    } else if i == 0 {
      assert r[j] == tail[j - 1];
      WithoutCounts(ps[1..], pid);
      assert tail[j - 1] in multiset(tail);
      assert r[j] in multiset(ps[1..]);
      var k :| 0 <= k < |ps[1..]| && ps[1..][k] == r[j];
      assert ps[k + 1] == r[j];
    } else {
      WithoutUnique(ps[1..], pid, i - 1, j - 1);
    }
  }

  /** Adding a process and then deleting the id it was given gives back the
      process list as it was. */
  lemma DeleteUndoesAdd(s: State, input: ProcessInput)
    requires WellFormed(s)
    requires AddProcess(s, input).Added?
    ensures DeleteProcess(AddProcess(s, input).state, s.nextPid).processes == s.processes
  {
    var t := AddProcess(s, input).state;
    var p := t.processes[|s.processes|];
    assert t.processes == s.processes + [p];
    WithoutAppend(s.processes, [p], s.nextPid);
    WithoutAbsent(s.processes, s.nextPid);
  }
}
