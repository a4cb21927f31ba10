/**
  One simulation step of the cooperative scheduler as functions on `State`:
  the allocation phase (t2.py:54-65) followed by the execution and cleanup
  phase (t2.py:67-92). The class in `cooperative_model.dfy` runs the same
  step with the source's loops and is proved equal to `StepSpec`.
 */
module SchedulerStep {
  import opened SchedulerState

  // ---------------------------------------------------------------------
  // Allocation
  // ---------------------------------------------------------------------

  /** A task waits for staff when it is not completed and under-staffed (t2.py:55). */
  predicate IsPending(t: Task)
  {
    !t.completed && |t.assignees| < t.resources
  }

  /** The pending tasks among the first `n`, in backlog order. */
  function PendingBelow(ts: seq<Task>, n: nat): (r: seq<nat>)
    requires n <= |ts|
    ensures StrictlyIncreasing(r)
    ensures forall j :: 0 <= j < |r| ==> r[j] < n
    ensures forall i :: 0 <= i < n ==> (i in r <==> IsPending(ts[i]))
  {
    if n == 0 then []
    else PendingBelow(ts, n - 1) + (if IsPending(ts[n - 1]) then [n - 1] else [])
  }

  /** The list `pending` of t2.py:55: every pending task, in backlog order. */
  function Pending(ts: seq<Task>): seq<nat>
  {
    PendingBelow(ts, |ts|)
  }

  /** A worker may join task `t` when it has room and is not on `t` already (t2.py:60). */
  predicate IsCandidate(ws: seq<Worker>, t: Task, w: nat)
    requires w < |ws|
  {
    HasRoom(ws[w]) && w !in t.assignees
  }

  /** The candidates for `t` among the first `n` workers, in roster order. */
  function CandidatesBelow(ws: seq<Worker>, t: Task, n: nat): (r: seq<nat>)
    requires n <= |ws|
    ensures StrictlyIncreasing(r)
    ensures forall j :: 0 <= j < |r| ==> r[j] < n && IsCandidate(ws, t, r[j])
    ensures forall w :: 0 <= w < n ==> (w in r <==> IsCandidate(ws, t, w))
  {
    if n == 0 then []
    else CandidatesBelow(ws, t, n - 1) + (if IsCandidate(ws, t, n - 1) then [n - 1] else [])
  }

  /** The list `candidates` of t2.py:60, in roster order. */
  function Candidates(ws: seq<Worker>, t: Task): seq<nat>
  {
    CandidatesBelow(ws, t, |ws|)
  }

  /** Every worker in `chosen` takes task `i` on at the end of its list (t2.py:64). */
  function AddTask(ws: seq<Worker>, chosen: seq<nat>, i: nat): (r: seq<Worker>)
  {
    seq(|ws|, w requires 0 <= w < |ws| =>
      if w in chosen then ws[w].(current := ws[w].current + [i]) else ws[w])
  }

  /** Record that the workers in `chosen` are on task `i` (t2.py:63-65). */
  function Assign(s: State, i: nat, chosen: seq<nat>): State
    requires i < |s.tasks|
  {
    State(s.tasks[i := s.tasks[i].(assignees := s.tasks[i].assignees + chosen)],
          AddTask(s.workers, chosen, i))
  }

  /**
    Staffing of task `i` (t2.py:58-65): when at least `needed` candidates
    exist, the first `needed` of them are assigned, otherwise nothing changes.
    When `needed` is not positive the source's `range(needed)` is empty, so
    nothing changes either.
   */
  function AllocateOne(s: State, i: nat): State
    requires i < |s.tasks|
  {
    var t := s.tasks[i];
    var needed := t.resources - |t.assignees|;
    var candidates := Candidates(s.workers, t);
    if 0 < needed <= |candidates| then Assign(s, i, candidates[..needed]) else s
  }

  /** The allocation loop of t2.py:57-65, run over the list `ps` in order. */
  function AllocateSeq(s: State, ps: seq<nat>): (r: State)
    requires forall j :: 0 <= j < |ps| ==> ps[j] < |s.tasks|
    ensures |r.tasks| == |s.tasks| && |r.workers| == |s.workers|
    decreases |ps|
  {
    if ps == [] then s
    else AllocateOne(AllocateSeq(s, ps[..|ps| - 1]), ps[|ps| - 1])
  }

  /** The whole allocation phase: every task pending at its start is offered staff, in backlog order. */
  function AllocateAll(s: State): (r: State)
    ensures |r.tasks| == |s.tasks| && |r.workers| == |s.workers|
  {
    AllocateSeq(s, Pending(s.tasks))
  }

  // ---------------------------------------------------------------------
  // Execution and cleanup
  // ---------------------------------------------------------------------

  /** One unit of work on a task; it is completed once nothing remains (t2.py:83-86). */
  function Advance(t: Task): Task
  {
    t.(duration := t.duration - 1, completed := t.duration - 1 <= 0)
  }

  /** Every active task advances by one unit; the rest are left as they are. */
  function ExecutedTasks(ts: seq<Task>): seq<Task>
  {
    seq(|ts|, i requires 0 <= i < |ts| => if Active(ts[i]) then Advance(ts[i]) else ts[i])
  }

  /** `a` is `b` with some elements left out, the others kept in their order. */
  predicate SubsequenceOf(a: seq<nat>, b: seq<nat>)
  {
    a == [] || (b != [] && ((a[0] == b[0] && SubsequenceOf(a[1..], b[1..])) || SubsequenceOf(a, b[1..])))
  }

  /** The comprehension of t2.py:92: the tasks of `cur` that are not completed in `ts`. */
  function Unfinished(cur: seq<nat>, ts: seq<Task>): (r: seq<nat>)
    ensures |r| <= |cur|
    ensures SubsequenceOf(r, cur)
    ensures forall x :: x in r <==> x in cur && !(x < |ts| && ts[x].completed)
    ensures Distinct(cur) ==> Distinct(r)
  {
    if cur == [] then []
    else if cur[0] < |ts| && ts[cur[0]].completed then Unfinished(cur[1..], ts)
    else
      var rest := Unfinished(cur[1..], ts);
      assert Distinct(cur) ==> Distinct(cur[1..]) && cur[0] !in rest;
      assert ([cur[0]] + rest)[1..] == rest;
      [cur[0]] + rest
  }

  /** Whether some task of `cur` needs more than one worker (t2.py:76-79). */
  predicate Cooperating(cur: seq<nat>, ts: seq<Task>)
  {
    exists j :: 0 <= j < |cur| && cur[j] < |ts| && ts[cur[j]].resources > 1
  }

  /** The colour a worker gets from the tasks it holds when execution starts (t2.py:71-73, 89). */
  function ColorOf(cur: seq<nat>, ts: seq<Task>): Color
  {
    if cur == [] then Grey else if Cooperating(cur, ts) then Magenta else Cyan
  }

  /** Every worker gets its colour and drops the tasks that are now completed. */
  function ExecutedWorkers(ts: seq<Task>, ws: seq<Worker>): seq<Worker>
  {
    seq(|ws|, w requires 0 <= w < |ws| =>
      ws[w].(current := Unfinished(ws[w].current, ExecutedTasks(ts)),
             color := ColorOf(ws[w].current, ts)))
  }

  /** The execution and cleanup phase (t2.py:67-92), as the source computes it when `Inv` holds. */
  function ExecuteSpec(s: State): State
  {
    State(ExecutedTasks(s.tasks), ExecutedWorkers(s.tasks, s.workers))
  }

  /** One whole step of the model (t2.py:50-92), apart from the step counter. */
  function StepSpec(s: State): State
  {
    ExecuteSpec(AllocateAll(s))
  }

  /** `n` steps in a row. */
  function Steps(s: State, n: nat): (r: State)
    ensures |r.tasks| == |s.tasks| && |r.workers| == |s.workers|
  {
    if n == 0 then s else StepSpec(Steps(s, n - 1))
  }
}
