/**
  The simulation object of t2.py:27-92. Its fields are updated in place by
  `Step`, with the loops of the source; each phase is proved to compute the
  corresponding function of `SchedulerStep`, and `SchedulerProperties` says
  what those functions guarantee.
 */
module Cooperative {
  import opened SchedulerState
  import opened SchedulerStep
  import opened SchedulerProperties

  class CooperativeModel {
    var tasks: seq<Task>
    var workers: seq<Worker>
    var stepCount: nat

    ghost predicate Valid()
      reads this
    {
      Inv(Snapshot())
    }

    function Snapshot(): State
      reads this
    {
      State(tasks, workers)
    }

    /**
      Builds the backlog and the roster (t2.py:28-48). The random draws of
      the source are the parameters: task `i` gets `durations[i]` and
      `resources[i]`.
     */
    constructor (durations: seq<int>, resources: seq<int>)
      requires ValidDraws(durations, resources)
      ensures Valid()
      ensures Snapshot() == InitialState(durations, resources)
      ensures stepCount == 0
    {
      var ts: seq<Task> := [];
      for i := 0 to TaskCount
        invariant |ts| == i
        invariant forall k :: 0 <= k < i ==> ts[k] == NewTask(k, durations[k], resources[k])
      {
        ts := ts + [NewTask(i, durations[i], resources[i])];
      }
      var ws: seq<Worker> := [];
      for c := 0 to |Configs|
        invariant |ws| == c
        invariant forall k :: 0 <= k < c ==> ws[k] == NewWorker(Configs[k].0, Configs[k].1)
      {
        var (cap, name) := Configs[c];
        ws := ws + [NewWorker(cap, name)];
      }
      tasks := ts;
      workers := ws;
      stepCount := 0;
      new;
      assert ts == InitialState(durations, resources).tasks;
    }

    /** One simulation step (t2.py:50-92). */
    method Step()
      requires Valid()
      modifies this
      ensures Valid()
      ensures stepCount == old(stepCount) + 1
      ensures Snapshot() == StepSpec(old(Snapshot()))
    {
      stepCount := stepCount + 1;
      AllocatePreservesInv(Snapshot());
      Allocate();
      Execute();
      StepPreservesInv(old(Snapshot()));
    }

    /**
      The allocation phase (t2.py:54-65): every task pending at its start,
      in backlog order, gets the first `needed` candidates in roster order,
      or nobody when there are fewer.
     */
    method Allocate()
      requires Valid()
      modifies this
      ensures Snapshot() == AllocateAll(old(Snapshot()))
      ensures stepCount == old(stepCount)
    {
      ghost var s0 := Snapshot();
      var pending := Pending(tasks);
      var p := 0;
      while p < |pending|
        invariant 0 <= p <= |pending|
        invariant Snapshot() == AllocateSeq(s0, pending[..p])
        invariant stepCount == old(stepCount)
      {
        var i := pending[p];
        AllocateSeqSnoc(s0, pending, p);
        StaffTask(i);
        p := p + 1;
      }
      assert pending[..p] == pending;
    }

    /**
      One round of the allocation loop (t2.py:58-65): task `i` gets its first
      `needed` candidates in roster order, or nobody when there are fewer.
     */
    method StaffTask(i: nat)
      requires i < |tasks|
      modifies this
      ensures Snapshot() == AllocateOne(old(Snapshot()), i)
      ensures stepCount == old(stepCount)
    {
      ghost var prev := Snapshot();
      var needed := tasks[i].resources - |tasks[i].assignees|;
      var candidates := Candidates(workers, tasks[i]);
      // range(needed) is empty when needed is not positive
      if |candidates| >= needed && needed > 0 {
        ChosenInRoster(candidates, needed, |workers|);
        AllocateOneStaffs(prev, i);
        assert candidates[..needed] == Chosen(prev, i);
        AssignFirst(i, candidates[..needed]);
      } else {
        AllocateOneSkips(prev, i);
      }
    }

    /** The workers `chosen` take task `i` on, one after the other (t2.py:63-65). */
    method AssignFirst(i: nat, chosen: seq<nat>)
      requires i < |tasks|
      requires forall j :: 0 <= j < |chosen| ==> chosen[j] < |workers|
      requires StrictlyIncreasing(chosen)
      modifies this
      ensures Snapshot() == Assign(old(Snapshot()), i, chosen)
      ensures stepCount == old(stepCount)
    {
      ghost var before := Snapshot();
      assert before.tasks[i].assignees + chosen[..0] == before.tasks[i].assignees;
      assert AddTask(before.workers, [], i) == before.workers;
      for k := 0 to |chosen|
        invariant |workers| == |before.workers|
        invariant tasks == before.tasks[i := before.tasks[i].(assignees := before.tasks[i].assignees + chosen[..k])]
        invariant workers == AddTask(before.workers, chosen[..k], i)
        invariant stepCount == old(stepCount)
      {
        var w := chosen[k];
        assert chosen[..k + 1] == chosen[..k] + [w];
        assert before.tasks[i].assignees + chosen[..k] + [w] == before.tasks[i].assignees + chosen[..k + 1];
        workers := workers[w := workers[w].(current := workers[w].current + [i])];
        tasks := tasks[i := tasks[i].(assignees := tasks[i].assignees + [w])];
      }
      assert chosen[..|chosen|] == chosen;
    }

    /**
      The execution and cleanup phase (t2.py:67-92): the workers are visited
      in roster order.
     */
    method Execute()
      requires Valid()
      modifies this
      ensures Snapshot() == ExecuteSpec(old(Snapshot()))
      ensures stepCount == old(stepCount)
    {
      ghost var s0 := Snapshot();
      var k := 0;
      while k < |workers|
        invariant 0 <= k <= |workers|
        invariant ExecutedUpTo(s0, Snapshot(), k)
        invariant stepCount == old(stepCount)
      {
        RunWorker(k, s0);
        k := k + 1;
      }
      ExecutedAll(s0, Snapshot());
    }

    /**
      The turn of worker `k` (t2.py:71-92). It decrements only the tasks on
      which it is the first assignee, marks a task completed once its duration
      is at most zero, takes its colour from the tasks it holds, and then
      drops its completed tasks. Because a task's first assignee is its
      lowest-numbered worker, every active task has been decremented, once,
      before any co-worker looks at it, so all of them drop it in this step.
     */
    method RunWorker(k: nat, ghost s0: State)
      requires k < |workers|
      requires ExecutedUpTo(s0, Snapshot(), k)
      modifies this
      ensures ExecutedUpTo(s0, Snapshot(), k + 1)
      ensures stepCount == old(stepCount)
    {
      TurnReadyFromInv(s0, k);
      ghost var before := Snapshot();
      var w := workers[k];
      w := w.(color := Grey);
      if w.current != [] {
        var held := w.current;
        assert held[..0] == [];
        var cooperating := WorkThrough(k, held, s0);
        w := w.(color := if cooperating then Magenta else Cyan);
        w := w.(current := Unfinished(held, tasks));
      } else {
        IdleTurn(s0, k);
      }
      TurnWorker(s0, tasks, k);
      TurnDone(s0, before, tasks, k);
      workers := workers[k := w];
    }

    /**
      Worker `k` goes through the tasks it holds (t2.py:76-86), decrementing
      those on which it is the first assignee and marking completed those
      whose duration is at most zero; the result says whether one of them
      needs more than one worker.
     */
    method WorkThrough(k: nat, held: seq<nat>, ghost s0: State) returns (cooperating: bool)
      requires TurnReady(s0, k) && held == s0.workers[k].current
      requires WorkedUpTo(s0, k, held, 0, tasks)
      modifies this`tasks
      ensures |tasks| == |s0.tasks|
      ensures forall i :: 0 <= i < |tasks| ==>
        tasks[i] == if DoneBefore(s0.tasks[i], k + 1) then Advance(s0.tasks[i]) else s0.tasks[i]
      ensures cooperating == Cooperating(held, s0.tasks)
    {
      cooperating := false;
      var m := 0;
      while m < |held|
        invariant 0 <= m <= |held|
        invariant WorkedUpTo(s0, k, held, m, tasks)
        invariant cooperating == Cooperating(held[..m], s0.tasks)
      {
        var i := held[m];
        WorkedNext(s0, k, held, m, tasks);
        CooperatingSnoc(held, m, s0.tasks);
        var t := tasks[i];
        if t.resources > 1 {
          cooperating := true;
        }
        if k == t.assignees[0] {
          t := t.(duration := t.duration - 1);
        }
        if t.duration <= 0 {
          t := t.(completed := true);
        }
        assert t == Advance(s0.tasks[i]);
        tasks := tasks[i := t];
        m := m + 1;
      }
      WorkedAll(s0, k, held, tasks);
    }
  }

  /**
    `ts` are the tasks once worker `k` has gone through the first `m` tasks
    it holds: a task is advanced when an earlier worker, or `k` among those
    `m`, is its first assignee.
   */
  ghost predicate WorkedUpTo(s0: State, k: nat, held: seq<nat>, m: nat, ts: seq<Task>)
  {
    && m <= |held|
    && |ts| == |s0.tasks|
    && (forall i :: 0 <= i < |ts| ==>
          ts[i] == if DoneBefore(s0.tasks[i], k) || DoneNow(s0.tasks[i], k, i, held[..m]) then Advance(s0.tasks[i]) else s0.tasks[i])
  }

  /** Going through the next held task advances it, and only it, if it was not advanced yet. */
  lemma WorkedNext(s0: State, k: nat, held: seq<nat>, m: nat, ts: seq<Task>)
    requires TurnReady(s0, k) && held == s0.workers[k].current
    requires WorkedUpTo(s0, k, held, m, ts) && m < |held|
    ensures var i := held[m];
      && i < |ts| && Active(s0.tasks[i]) && s0.tasks[i].assignees[0] <= k
      && ts[i] == (if s0.tasks[i].assignees[0] < k then Advance(s0.tasks[i]) else s0.tasks[i])
      && WorkedUpTo(s0, k, held, m + 1, ts[i := Advance(s0.tasks[i])])
  {
    var i := held[m];
    assert held[m] in held;
    assert i !in held[..m];
    assert held[..m + 1] == held[..m] + [i];
  }

  /** Once worker `k` has gone through all it holds, exactly the tasks whose first assignee is at or before `k` are advanced. */
  lemma WorkedAll(s0: State, k: nat, held: seq<nat>, ts: seq<Task>)
    requires TurnReady(s0, k) && held == s0.workers[k].current
    requires WorkedUpTo(s0, k, held, |held|, ts)
    ensures forall i :: 0 <= i < |ts| ==>
      ts[i] == if DoneBefore(s0.tasks[i], k + 1) then Advance(s0.tasks[i]) else s0.tasks[i]
  {
    assert held[..|held|] == held;
  }

  /** Looking at one more held task sets the flag exactly when that task needs more than one worker. */
  lemma CooperatingSnoc(cur: seq<nat>, m: nat, ts: seq<Task>)
    requires m < |cur|
    ensures Cooperating(cur[..m + 1], ts) <==> Cooperating(cur[..m], ts) || (cur[m] < |ts| && ts[cur[m]].resources > 1)
  {
    var next := cur[..m + 1];
    assert forall j :: 0 <= j < m ==> next[j] == cur[..m][j];
    if cur[m] < |ts| && ts[cur[m]].resources > 1 {
      assert next[m] == cur[m];
    }
  }

  /** The first `needed` candidates are workers of the roster, in increasing order. */
  lemma ChosenInRoster(c: seq<nat>, needed: nat, n: nat)
    requires needed <= |c| && StrictlyIncreasing(c) && forall j :: 0 <= j < |c| ==> c[j] < n
    ensures StrictlyIncreasing(c[..needed]) && forall j :: 0 <= j < needed ==> c[..needed][j] < n
  {
  }

  /**
    What worker `k`'s turn relies on: it holds no task twice, every task it
    holds is active with a first assignee at or before `k`, and it holds every
    active task whose first assignee it is.
   */
  ghost predicate TurnReady(s: State, k: nat)
  {
    && k < |s.workers|
    && Distinct(s.workers[k].current)
    && (forall x :: x in s.workers[k].current ==>
          x < |s.tasks| && Active(s.tasks[x]) && s.tasks[x].assignees[0] <= k)
    && (forall i :: 0 <= i < |s.tasks| && Active(s.tasks[i]) && s.tasks[i].assignees[0] == k ==>
          i in s.workers[k].current)
  }

  lemma TurnReadyFromInv(s: State, k: nat)
    requires Inv(s) && k < |s.workers|
    ensures TurnReady(s, k)
  {
    assert WorkerOk(s.workers[k], |s.tasks|);
    forall x | x in s.workers[k].current
      ensures x < |s.tasks| && Active(s.tasks[x]) && s.tasks[x].assignees[0] <= k
    {
      assert Linked(s, k, x) && TaskOk(s.tasks[x], x, |s.workers|);
      FirstIsLeast(s.tasks[x].assignees, k);
    }
    forall i | 0 <= i < |s.tasks| && Active(s.tasks[i]) && s.tasks[i].assignees[0] == k
      ensures i in s.workers[k].current
    {
      assert s.tasks[i].assignees[0] in s.tasks[i].assignees;
      assert Linked(s, k, i);
    }
  }

  /**
    `s` is the state of the execution phase, started in `s0`, once the
    workers before roster position `k` have had their turn.
   */
  ghost predicate ExecutedUpTo(s0: State, s: State, k: nat)
  {
    && Inv(s0)
    && k <= |s0.workers|
    && |s.workers| == |s0.workers|
    && |s.tasks| == |s0.tasks|
    && (forall i :: 0 <= i < |s.tasks| ==>
          s.tasks[i] == if DoneBefore(s0.tasks[i], k) then Advance(s0.tasks[i]) else s0.tasks[i])
    && (forall w :: 0 <= w < k ==> s.workers[w] == ExecutedWorkers(s0.tasks, s0.workers)[w])
    && (forall w :: k <= w < |s.workers| ==> s.workers[w] == s0.workers[w])
  }

  /** Once every worker has had its turn, the state is `ExecuteSpec(s0)`. */
  lemma ExecutedAll(s0: State, s: State)
    requires ExecutedUpTo(s0, s, |s0.workers|)
    ensures s == ExecuteSpec(s0)
  {
    forall i | 0 <= i < |s.tasks| ensures s.tasks[i] == ExecutedTasks(s0.tasks)[i] {
      assert TaskOk(s0.tasks[i], i, |s0.workers|);
      if Active(s0.tasks[i]) {
        assert s0.tasks[i].assignees[0] in s0.tasks[i].assignees;
      }
    }
  }

  /** A worker that holds nothing is the first assignee of no active task, so its turn advances nothing. */
  lemma IdleTurn(s0: State, k: nat)
    requires TurnReady(s0, k) && s0.workers[k].current == []
    ensures forall i :: 0 <= i < |s0.tasks| ==> (DoneBefore(s0.tasks[i], k + 1) <==> DoneBefore(s0.tasks[i], k))
  {
  }

  /**
    Once worker `k` has advanced its tasks (`ts`), its colour comes from the
    tasks it held and its cleaned list is what the execution phase gives it.
   */
  lemma TurnWorker(s0: State, ts: seq<Task>, k: nat)
    requires TurnReady(s0, k)
    requires |ts| == |s0.tasks|
    requires forall i :: 0 <= i < |ts| ==>
      ts[i] == if DoneBefore(s0.tasks[i], k + 1) then Advance(s0.tasks[i]) else s0.tasks[i]
    ensures var held := s0.workers[k].current;
      ExecutedWorkers(s0.tasks, s0.workers)[k] ==
        s0.workers[k].(current := Unfinished(held, ts), color := ColorOf(held, s0.tasks))
  {
    var held := s0.workers[k].current;
    forall x | x in held ensures x < |ts| && ts[x].completed == ExecutedTasks(s0.tasks)[x].completed {
      assert DoneBefore(s0.tasks[x], k + 1);
    }
    UnfinishedAgrees(held, ts, ExecutedTasks(s0.tasks));
  }

  /** With worker `k`'s final state in place, the execution phase has covered `k + 1` workers. */
  lemma TurnDone(s0: State, s: State, ts: seq<Task>, k: nat)
    requires ExecutedUpTo(s0, s, k) && k < |s0.workers|
    requires |ts| == |s0.tasks|
    requires forall i :: 0 <= i < |ts| ==>
      ts[i] == if DoneBefore(s0.tasks[i], k + 1) then Advance(s0.tasks[i]) else s0.tasks[i]
    ensures ExecutedUpTo(s0, State(ts, s.workers[k := ExecutedWorkers(s0.tasks, s0.workers)[k]]), k + 1)
  {
  }

  /** Task `t` has already been advanced by a worker before roster position `k`. */
  ghost predicate DoneBefore(t: Task, k: nat)
  {
    Active(t) && t.assignees[0] < k
  }

  /** Task `i` has been advanced by worker `k`, its first assignee, among the tasks `seen`. */
  ghost predicate DoneNow(t: Task, k: nat, i: nat, seen: seq<nat>)
  {
    Active(t) && t.assignees[0] == k && i in seen
  }

  /** The comprehension of t2.py:92 only looks at the completion flags of the tasks in the list. */
  lemma {:induction false} UnfinishedAgrees(cur: seq<nat>, ts: seq<Task>, us: seq<Task>)
    requires |ts| == |us|
    requires forall x :: x in cur ==> x < |ts| && ts[x].completed == us[x].completed
    ensures Unfinished(cur, ts) == Unfinished(cur, us)
  {
    if cur != [] {
      assert cur[0] in cur;
      assert forall x :: x in cur[1..] ==> x in cur;
      UnfinishedAgrees(cur[1..], ts, us);
    }
  }
}
