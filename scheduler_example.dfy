/**
  A worked example of one step on the fixed roster: three tasks needing 1, 2
  and 1 workers. Allocation runs in backlog order and picks candidates in
  roster order, so task 1 goes to Agents 1 and 2 (Agent 1 still has room
  after task 0), which leaves only Agent 3 for task 2.
 */
module SchedulerExample {
  import opened SchedulerState
  import opened SchedulerStep
  import opened SchedulerProperties

  /** The fixed roster written out: capacities 2, 1 and 2, nothing held yet. */
  function ExampleRoster(): seq<Worker>
  {
    [NewWorker(2, "Agent 1"), NewWorker(1, "Agent 2"), NewWorker(2, "Agent 3")]
  }

  lemma ExampleRosterIsRoster()
    ensures Roster() == ExampleRoster()
  {
    var r := Roster();
    assert r[0] == ExampleRoster()[0];
    assert r[1] == ExampleRoster()[1];
    assert r[2] == ExampleRoster()[2];
  }

  /** Three tasks (durations 5, 6, 5; resource needs 1, 2, 1) on the fixed roster. */
  function ExampleStart(): State
  {
    State([NewTask(0, 5, 1), NewTask(1, 6, 2), NewTask(2, 5, 1)], ExampleRoster())
  }

  /** The state after task 0 alone went to Agent 1. */
  function ExampleFirst(): State
  {
    State([Task(0, 5, 1, [0], false), NewTask(1, 6, 2), NewTask(2, 5, 1)],
          [Worker("Agent 1", 2, [0], Grey), NewWorker(1, "Agent 2"), NewWorker(2, "Agent 3")])
  }

  /** The state after task 0 went to Agent 1 and task 1 to Agents 1 and 2. */
  function ExampleMidway(): State
  {
    State([Task(0, 5, 1, [0], false), Task(1, 6, 2, [0, 1], false), NewTask(2, 5, 1)],
          [Worker("Agent 1", 2, [0, 1], Grey), Worker("Agent 2", 1, [1], Grey), NewWorker(2, "Agent 3")])
  }

  /** The state at the end of the allocation phase. */
  function ExampleStaffed(): State
  {
    State([Task(0, 5, 1, [0], false), Task(1, 6, 2, [0, 1], false), Task(2, 5, 1, [2], false)],
          [Worker("Agent 1", 2, [0, 1], Grey), Worker("Agent 2", 1, [1], Grey), Worker("Agent 3", 2, [2], Grey)])
  }

  /** The tasks at the end of the first step: each has lost one unit. */
  function ExampleAfterTasks(): seq<Task>
  {
    [Task(0, 4, 1, [0], false), Task(1, 5, 2, [0, 1], false), Task(2, 4, 1, [2], false)]
  }

  /** The workers at the end of the first step, with their colours. */
  function ExampleAfterWorkers(): seq<Worker>
  {
    [Worker("Agent 1", 2, [0, 1], Magenta), Worker("Agent 2", 1, [1], Magenta), Worker("Agent 3", 2, [2], Cyan)]
  }

  lemma ExamplePending()
    ensures Pending(ExampleStart().tasks) == [0, 1, 2]
  {
    var s := ExampleStart();
    assert PendingBelow(s.tasks, 1) == [0];
    assert PendingBelow(s.tasks, 2) == [0, 1];
  }

  /** On a roster of three, an unstaffed task needing one worker goes to the first worker when it has room. */
  lemma StaffFirst(s: State, i: nat)
    requires |s.workers| == 3 && i < |s.tasks|
    requires s.tasks[i].assignees == [] && s.tasks[i].resources == 1
    requires HasRoom(s.workers[0])
    ensures AllocateOne(s, i) == Assign(s, i, [0])
  {
    var c := Candidates(s.workers, s.tasks[i]);
    assert IsCandidate(s.workers, s.tasks[i], 0);
    FirstIsLeast(c, 0);
    assert c[..1] == [c[0]] == [0];
  }

  /** On a roster of three, an unstaffed task needing two workers goes to the first two when both have room. */
  lemma StaffFirstTwo(s: State, i: nat)
    requires |s.workers| == 3 && i < |s.tasks|
    requires s.tasks[i].assignees == [] && s.tasks[i].resources == 2
    requires HasRoom(s.workers[0]) && HasRoom(s.workers[1])
    ensures AllocateOne(s, i) == Assign(s, i, [0, 1])
  {
    var c := Candidates(s.workers, s.tasks[i]);
    assert IsCandidate(s.workers, s.tasks[i], 0) && IsCandidate(s.workers, s.tasks[i], 1);
    FirstIsLeast(c, 0);
    var j :| 0 <= j < |c| && c[j] == 1;
    assert j >= 1 && c[1] <= c[j];
    assert c[..2] == [c[0], c[1]] == [0, 1];
  }

  /** On a roster of three, an unstaffed task needing one worker goes to the third when only it has room. */
  lemma StaffThird(s: State, i: nat)
    requires |s.workers| == 3 && i < |s.tasks|
    requires s.tasks[i].assignees == [] && s.tasks[i].resources == 1
    requires !HasRoom(s.workers[0]) && !HasRoom(s.workers[1]) && HasRoom(s.workers[2])
    ensures AllocateOne(s, i) == Assign(s, i, [2])
  {
    var c := Candidates(s.workers, s.tasks[i]);
    assert IsCandidate(s.workers, s.tasks[i], 2);
    assert !IsCandidate(s.workers, s.tasks[i], 0) && !IsCandidate(s.workers, s.tasks[i], 1);
    assert 2 in c;
    assert c[0] == 2;
    assert c[..1] == [2];
  }

  /** Every worker has room at the start, so task 0 goes to the first of them, Agent 1. */
  lemma ExampleTask0()
    ensures AllocateOne(ExampleStart(), 0) == ExampleFirst()
  {
    StaffFirst(ExampleStart(), 0);
    ExampleAssign0();
  }

  lemma ExampleAssign0()
    ensures Assign(ExampleStart(), 0, [0]) == ExampleFirst()
  {
    var s := ExampleStart();
    var ws := AddTask(s.workers, [0], 0);
    assert [] + [0] == [0];
    assert ws[0] == ExampleFirst().workers[0];
    assert ws[1] == ExampleFirst().workers[1];
    assert ws[2] == ExampleFirst().workers[2];
  }

  /** Task 1 needs two workers: Agent 1 still has room, so it gets Agents 1 and 2, not Agent 3. */
  lemma ExampleTask1()
    ensures AllocateOne(ExampleFirst(), 1) == ExampleMidway()
  {
    StaffFirstTwo(ExampleFirst(), 1);
    ExampleAssign1();
  }

  lemma ExampleAssign1()
    ensures Assign(ExampleFirst(), 1, [0, 1]) == ExampleMidway()
  {
    var s := ExampleFirst();
    var ws := AddTask(s.workers, [0, 1], 1);
    assert [] + [0, 1] == [0, 1];
    assert ws[0] == ExampleMidway().workers[0] by { assert [0] + [1] == [0, 1]; }
    assert ws[1] == ExampleMidway().workers[1] by { assert [] + [1] == [1]; }
    assert ws[2] == ExampleMidway().workers[2];
  }

  /** Only Agent 3 has room left, so it takes task 2. */
  lemma ExampleTask2()
    ensures AllocateOne(ExampleMidway(), 2) == ExampleStaffed()
  {
    StaffThird(ExampleMidway(), 2);
    ExampleAssign2();
  }

  lemma ExampleAssign2()
    ensures Assign(ExampleMidway(), 2, [2]) == ExampleStaffed()
  {
    var s := ExampleMidway();
    var ws := AddTask(s.workers, [2], 2);
    assert [] + [2] == [2];
    assert ws[0] == ExampleStaffed().workers[0];
    assert ws[1] == ExampleStaffed().workers[1];
    assert ws[2] == ExampleStaffed().workers[2];
  }

  lemma ExampleRound0()
    ensures AllocateSeq(ExampleStart(), [0]) == ExampleFirst()
  {
    AllocateSeqSnoc(ExampleStart(), [0], 0);
    assert [0][..0] == [] && [0][..1] == [0];
    ExampleTask0();
  }

  lemma ExampleRound1()
    ensures AllocateSeq(ExampleStart(), [0, 1]) == ExampleMidway()
  {
    AllocateSeqSnoc(ExampleStart(), [0, 1], 1);
    assert [0, 1][..1] == [0] && [0, 1][..2] == [0, 1];
    ExampleRound0();
    ExampleTask1();
  }

  lemma ExampleRound2()
    ensures AllocateSeq(ExampleStart(), [0, 1, 2]) == ExampleStaffed()
  {
    AllocateSeqSnoc(ExampleStart(), [0, 1, 2], 2);
    assert [0, 1, 2][..2] == [0, 1] && [0, 1, 2][..3] == [0, 1, 2];
    ExampleRound1();
    ExampleTask2();
  }

  /** The example's allocation phase staffs task 0 with Agent 1, task 1 with Agents 1 and 2, and task 2 with Agent 3. */
  lemma ExampleAllocation()
    ensures AllocateAll(ExampleStart()) == ExampleStaffed()
  {
    ExamplePending();
    ExampleRound2();
  }

  lemma ExampleExecutedTasks()
    ensures ExecutedTasks(ExampleStaffed().tasks) == ExampleAfterTasks()
  {
    var ts := ExampleStaffed().tasks;
    assert Active(ts[0]) && Active(ts[1]) && Active(ts[2]);
  }

  /** Agents 1 and 2 share task 1 and turn magenta; Agent 3 works alone on task 2 and turns cyan. */
  lemma ExampleColours()
    ensures var ts := ExampleStaffed().tasks;
      ColorOf([0, 1], ts) == Magenta && ColorOf([1], ts) == Magenta && ColorOf([2], ts) == Cyan
  {
    var ts := ExampleStaffed().tasks;
    assert Cooperating([0, 1], ts) by { assert ts[[0, 1][1]].resources > 1; }
    assert Cooperating([1], ts) by { assert ts[[1][0]].resources > 1; }
  }

  /** No task is completed after the first step, so every worker keeps its list. */
  lemma ExampleCleanup()
    ensures var ts := ExampleAfterTasks();
      Unfinished([0, 1], ts) == [0, 1] && Unfinished([1], ts) == [1] && Unfinished([2], ts) == [2]
  {
    var ts := ExampleAfterTasks();
    assert [0, 1][1..] == [1] && [1][1..] == [] && [2][1..] == [];
    assert Unfinished([], ts) == [];
    assert Unfinished([1], ts) == [1];
  }

  lemma ExampleExecutedWorkers()
    ensures ExecutedWorkers(ExampleStaffed().tasks, ExampleStaffed().workers) == ExampleAfterWorkers()
  {
    var ts := ExampleStaffed().tasks;
    var after := ExampleAfterTasks();
    ExampleExecutedTasks();
    ExampleColours();
    ExampleCleanup();
    var ws := ExecutedWorkers(ts, ExampleStaffed().workers);
    assert ws[0] == Worker("Agent 1", 2, Unfinished([0, 1], after), ColorOf([0, 1], ts));
    assert ws[1] == Worker("Agent 2", 1, Unfinished([1], after), ColorOf([1], ts));
    assert ws[2] == Worker("Agent 3", 2, Unfinished([2], after), ColorOf([2], ts));
    assert ws == [ws[0], ws[1], ws[2]];
  }

  /**
    The first step of the example, on the fixed roster: each task loses one
    unit; Agents 1 and 2 cooperate on task 1 and are magenta, Agent 3 works
    alone and is cyan.
   */
  lemma ExampleFirstStep()
    ensures ExampleStart().workers == Roster()
    ensures StepSpec(ExampleStart()) ==
      State([Task(0, 4, 1, [0], false), Task(1, 5, 2, [0, 1], false), Task(2, 4, 1, [2], false)],
            [Worker("Agent 1", 2, [0, 1], Magenta), Worker("Agent 2", 1, [1], Magenta), Worker("Agent 3", 2, [2], Cyan)])
  {
    ExampleRosterIsRoster();
    ExampleAllocation();
    ExampleExecutedTasks();
    ExampleExecutedWorkers();
  }
}
