/**
  The state of the cooperative task scheduler: the task backlog, the worker
  roster, and the invariant that holds between simulation steps.

  The source keeps tasks and workers as objects that refer to each other.
  Here both are values held in two sequences, and a reference becomes an
  index: a task's `assignees` lists roster positions, a worker's `current`
  lists backlog positions.
 */
module SchedulerState {

  /** Display colour of a worker: idle, working alone, or cooperating. */
  datatype Color = Grey | Cyan | Magenta

  /** One task of the backlog (t2.py:8-14). */
  datatype Task = Task(
    id: nat,
    duration: int,          // remaining duration, decremented once per step
    resources: int,         // number of workers the task needs at once
    assignees: seq<nat>,    // roster indices of the workers on the task, in order of assignment
    completed: bool)

  /** One worker of the roster (t2.py:16-22). */
  datatype Worker = Worker(
    name: string,
    capacity: int,          // how many tasks the worker may hold at once
    current: seq<nat>,      // backlog indices of the tasks the worker holds
    color: Color)

  /** The whole simulation state: backlog and roster. */
  datatype State = State(tasks: seq<Task>, workers: seq<Worker>)

  /** Number of tasks created at start-up (t2.py:35). */
  const TaskCount: nat := 50

  /** The fixed roster configuration: capacity and name, in roster order (t2.py:42). */
  const Configs: seq<(int, string)> := [(2, "Agent 1"), (1, "Agent 2"), (2, "Agent 3")]

  predicate StrictlyIncreasing(s: seq<nat>)
  {
    forall j, k :: 0 <= j < k < |s| ==> s[j] < s[k]
  }

  predicate Distinct(s: seq<nat>)
  {
    forall j, k :: 0 <= j < k < |s| ==> s[j] != s[k]
  }

  lemma FirstIsLeast(s: seq<nat>, x: nat)
    requires StrictlyIncreasing(s) && x in s
    ensures |s| > 0 && s[0] <= x
  {
    var j :| 0 <= j < |s| && s[j] == x;
    if j > 0 {
      assert s[0] < s[j];
    }
  }

  /** A task is active when it is staffed and not yet completed. */
  predicate Active(t: Task)
  {
    |t.assignees| > 0 && !t.completed
  }

  /** A worker has room when it holds fewer tasks than its capacity. */
  predicate HasRoom(w: Worker)
  {
    |w.current| < w.capacity
  }

  /**
    What holds of task number `i` between steps: staffing is all or nothing
    and in roster order, and a task is completed exactly when its remaining
    duration has reached zero (it never goes below).
   */
  predicate TaskOk(t: Task, i: nat, workerCount: nat)
  {
    && t.id == i
    && 1 <= t.resources
    && StrictlyIncreasing(t.assignees)
    && (forall w :: w in t.assignees ==> w < workerCount)
    && (|t.assignees| == 0 || |t.assignees| == t.resources)
    && (t.completed ==> t.duration == 0 && |t.assignees| == t.resources)
    && (!t.completed ==> t.duration >= 1)
  }

  /** What holds of a worker between steps: the capacity bound and no task held twice. */
  predicate WorkerOk(w: Worker, taskCount: nat)
  {
    && |w.current| <= w.capacity
    && Distinct(w.current)
    && (forall i :: i in w.current ==> i < taskCount)
  }

  /**
    A worker holds a task exactly when it is on the task's staff and the task
    is not completed.
   */
  predicate Linked(s: State, w: nat, i: nat)
    requires w < |s.workers| && i < |s.tasks|
  {
    i in s.workers[w].current <==> w in s.tasks[i].assignees && !s.tasks[i].completed
  }

  predicate TasksOk(s: State)
  {
    forall i :: 0 <= i < |s.tasks| ==> TaskOk(s.tasks[i], i, |s.workers|)
  }

  predicate WorkersOk(s: State)
  {
    forall w :: 0 <= w < |s.workers| ==> WorkerOk(s.workers[w], |s.tasks|)
  }

  predicate AllLinked(s: State)
  {
    forall w, i :: 0 <= w < |s.workers| && 0 <= i < |s.tasks| ==> Linked(s, w, i)
  }

  /** The invariant of the scheduler between steps. */
  predicate Inv(s: State)
  {
    TasksOk(s) && WorkersOk(s) && AllLinked(s)
  }

  /** The random draws the source makes for every task: a resource need and a duration (t2.py:37-38). */
  predicate ValidDraws(durations: seq<int>, resources: seq<int>)
  {
    && |durations| == TaskCount
    && |resources| == TaskCount
    && (forall i :: 0 <= i < TaskCount ==> resources[i] in {1, 2, 3})
    && (forall i :: 0 <= i < TaskCount ==> 5 <= durations[i] <= 20)
  }

  /** A fresh task, unstaffed and not completed (t2.py:9-14). */
  function NewTask(id: nat, duration: int, resources: int): Task
  {
    Task(id, duration, resources, [], false)
  }

  /** A fresh worker, holding nothing (t2.py:17-22). */
  function NewWorker(capacity: int, name: string): Worker
  {
    Worker(name, capacity, [], Grey)
  }

  /** The roster built from `Configs`, in the same order. */
  function Roster(): seq<Worker>
  {
    seq(|Configs|, w requires 0 <= w < |Configs| => NewWorker(Configs[w].0, Configs[w].1))
  }

  /**
    The state right after start-up (t2.py:28-48): task `i` has the `i`-th
    drawn duration and resource need, nobody is staffed, and the invariant holds.
   */
  function InitialState(durations: seq<int>, resources: seq<int>): (s: State)
    requires ValidDraws(durations, resources)
    ensures |s.tasks| == TaskCount && s.workers == Roster()
    ensures forall i :: 0 <= i < TaskCount ==> s.tasks[i] == NewTask(i, durations[i], resources[i])
    ensures Inv(s)
  {
    State(seq(TaskCount, i requires 0 <= i < TaskCount => NewTask(i, durations[i], resources[i])), Roster())
  }
}
