/**
  What one step of the scheduler guarantees, proved about the functions of
  `SchedulerStep`: the invariant `Inv` is preserved (capacity bound,
  all-or-nothing staffing in roster order, one decrement per task per step,
  completion and same-step retirement), together with the roster-order
  tie-break, starvation, and the meaning of the worker colours.
 */
module SchedulerProperties {
  import opened SchedulerState
  import opened SchedulerStep

  // ---------------------------------------------------------------------
  // Allocation
  // ---------------------------------------------------------------------

  /** Under `Inv`, only an unstaffed, uncompleted task can receive workers. */
  lemma StaffedOnlyFromEmpty(s: State, i: nat)
    requires Inv(s) && i < |s.tasks|
    requires 0 < s.tasks[i].resources - |s.tasks[i].assignees|
    ensures s.tasks[i].assignees == [] && !s.tasks[i].completed
    ensures forall w :: 0 <= w < |s.workers| ==> i !in s.workers[w].current
  {
    assert TaskOk(s.tasks[i], i, |s.workers|);
    forall w | 0 <= w < |s.workers| ensures i !in s.workers[w].current {
      assert Linked(s, w, i);
    }
  }

  /** Appending a task a worker does not hold keeps its list free of repeats. */
  lemma DistinctSnoc(cur: seq<nat>, i: nat)
    requires Distinct(cur) && i !in cur
    ensures Distinct(cur + [i])
  {
    var c := cur + [i];
    forall j, k | 0 <= j < k < |c| ensures c[j] != c[k] {
      if k == |cur| {
        assert c[j] == cur[j];
      } else {
        assert c[j] == cur[j] && c[k] == cur[k];
      }
    }
  }

  /** Task `i` can be staffed: it needs workers and has at least as many candidates as it needs. */
  predicate CanStaff(s: State, i: nat)
    requires i < |s.tasks|
  {
    0 < s.tasks[i].resources - |s.tasks[i].assignees| <= |Candidates(s.workers, s.tasks[i])|
  }

  /** The workers that staffing task `i` chooses: its first `needed` candidates. */
  function Chosen(s: State, i: nat): seq<nat>
    requires i < |s.tasks| && CanStaff(s, i)
  {
    Candidates(s.workers, s.tasks[i])[..s.tasks[i].resources - |s.tasks[i].assignees|]
  }

  /** When task `i` can be staffed, staffing assigns its first `needed` candidates. */
  lemma AllocateOneStaffs(s: State, i: nat)
    requires i < |s.tasks| && CanStaff(s, i)
    ensures AllocateOne(s, i) == Assign(s, i, Chosen(s, i))
  {
  }

  /** When task `i` cannot be staffed, staffing changes nothing. */
  lemma AllocateOneSkips(s: State, i: nat)
    requires i < |s.tasks| && !CanStaff(s, i)
    ensures AllocateOne(s, i) == s
  {
  }

  /** An unstaffed task that gets exactly `resources` workers, in roster order, still satisfies `TaskOk`. */
  lemma StaffedTaskOk(t: Task, i: nat, n: nat, ch: seq<nat>)
    requires TaskOk(t, i, n) && t.assignees == []
    requires |ch| == t.resources && StrictlyIncreasing(ch) && forall w :: w in ch ==> w < n
    ensures TaskOk(t.(assignees := t.assignees + ch), i, n)
  {
    assert t.assignees + ch == ch;
  }

  /** Staffing keeps every task's part of the invariant. */
  lemma AssignKeepsTasks(s: State, i: nat)
    requires TasksOk(s) && i < |s.tasks| && CanStaff(s, i)
    requires s.tasks[i].assignees == []
    ensures TasksOk(Assign(s, i, Chosen(s, i)))
  {
    var ch := Chosen(s, i);
    var r := Assign(s, i, ch);
    AssignShape(s, i, ch);
    FirstCandidates(s.workers, s.tasks[i], s.tasks[i].resources);
    StaffedTaskOk(s.tasks[i], i, |s.workers|, ch);
    forall k | 0 <= k < |r.tasks| ensures TaskOk(r.tasks[k], k, |r.workers|) {
      if k != i {
        assert TaskOk(s.tasks[k], k, |s.workers|);
      }
    }
  }

  /** Staffing keeps every worker's part of the invariant: the chosen workers had room and did not hold the task. */
  lemma AssignKeepsWorkers(s: State, i: nat)
    requires WorkersOk(s) && i < |s.tasks| && CanStaff(s, i)
    requires forall w :: 0 <= w < |s.workers| ==> i !in s.workers[w].current
    ensures WorkersOk(Assign(s, i, Chosen(s, i)))
  {
    var ch := Chosen(s, i);
    var r := Assign(s, i, ch);
    AssignShape(s, i, ch);
    FirstCandidates(s.workers, s.tasks[i], s.tasks[i].resources - |s.tasks[i].assignees|);
    forall w | 0 <= w < |r.workers| ensures WorkerOk(r.workers[w], |r.tasks|) {
      assert WorkerOk(s.workers[w], |s.tasks|);
      if w in ch {
        DistinctSnoc(s.workers[w].current, i);
      }
    }
  }

  /** Staffing an uncompleted task nobody holds keeps the worker/task symmetry. */
  lemma AssignKeepsLinked(s: State, i: nat)
    requires AllLinked(s) && i < |s.tasks| && CanStaff(s, i)
    requires s.tasks[i].assignees == [] && !s.tasks[i].completed
    requires forall w :: 0 <= w < |s.workers| ==> i !in s.workers[w].current
    ensures AllLinked(Assign(s, i, Chosen(s, i)))
  {
    var ch := Chosen(s, i);
    var r := Assign(s, i, ch);
    AssignShape(s, i, ch);
    assert r.tasks[i].assignees == ch;
    forall w, k | 0 <= w < |r.workers| && 0 <= k < |r.tasks| ensures Linked(r, w, k) {
      assert Linked(s, w, k);
    }
  }

  /** Staffing one task keeps the invariant (t2.py:58-65). */
  lemma AllocateOnePreservesInv(s: State, i: nat)
    requires Inv(s) && i < |s.tasks|
    ensures Inv(AllocateOne(s, i))
  {
    if CanStaff(s, i) {
      StaffedOnlyFromEmpty(s, i);
      AllocateOneStaffs(s, i);
      AssignKeepsTasks(s, i);
      AssignKeepsWorkers(s, i);
      AssignKeepsLinked(s, i);
    }
  }

  /** One more round of the allocation loop staffs the next task of the list. */
  lemma AllocateSeqSnoc(s0: State, ps: seq<nat>, p: nat)
    requires p < |ps| && forall j :: 0 <= j < |ps| ==> ps[j] < |s0.tasks|
    ensures ps[p] < |AllocateSeq(s0, ps[..p]).tasks|
    ensures AllocateSeq(s0, ps[..p + 1]) == AllocateOne(AllocateSeq(s0, ps[..p]), ps[p])
  {
    assert ps[..p + 1][..p] == ps[..p];
  }

  /** The allocation loop keeps the invariant, whatever tasks it is run over. */
  lemma {:induction false} AllocateSeqPreservesInv(s: State, ps: seq<nat>)
    requires Inv(s)
    requires forall j :: 0 <= j < |ps| ==> ps[j] < |s.tasks|
    ensures Inv(AllocateSeq(s, ps))
    decreases |ps|
  {
    if ps != [] {
      var front := ps[..|ps| - 1];
      AllocateSeqPreservesInv(s, front);
      AllocateOnePreservesInv(AllocateSeq(s, front), ps[|ps| - 1]);
    }
  }

  /** The allocation phase keeps the capacity bound and all other parts of `Inv`. */
  lemma AllocatePreservesInv(s: State)
    requires Inv(s)
    ensures Inv(AllocateAll(s))
  {
    AllocateSeqPreservesInv(s, Pending(s.tasks));
  }

  /** Staffing one task is all or nothing, touches no other task, and fails only for want of candidates. */
  lemma AllocateOneAllOrNothing(s: State, i: nat)
    requires Inv(s) && i < |s.tasks|
    ensures var r := AllocateOne(s, i);
      r == s || (IsPending(s.tasks[i]) && |r.tasks[i].assignees| == s.tasks[i].resources)
    ensures IsPending(s.tasks[i]) ==>
      (AllocateOne(s, i) == s <==> |Candidates(s.workers, s.tasks[i])| < s.tasks[i].resources)
    ensures forall k :: 0 <= k < |s.tasks| && k != i ==> AllocateOne(s, i).tasks[k] == s.tasks[k]
  {
    var t := s.tasks[i];
    var c := Candidates(s.workers, t);
    var needed := t.resources - |t.assignees|;
    assert TaskOk(t, i, |s.workers|);
    if 0 < needed <= |c| {
      StaffedOnlyFromEmpty(s, i);
      var r := AllocateOne(s, i);
      assert |r.tasks[i].assignees| == needed == t.resources;
    }
  }

  /**
    When a task is staffed, its new workers are the first `needed` workers in
    roster order that had room and were not on it yet (t2.py:60, 63-65):
    every such worker that was passed over comes later in the roster than
    all of them, and each chosen worker takes the task on at the end of its
    list.
   */
  lemma AllocateOneRosterOrder(s: State, i: nat)
    requires i < |s.tasks| && CanStaff(s, i)
    ensures var t := s.tasks[i]; var ch := Chosen(s, i);
      && AllocateOne(s, i).tasks[i] == t.(assignees := t.assignees + ch)
      && |ch| == t.resources - |t.assignees|
      && StrictlyIncreasing(ch)
      && (forall w :: w in ch ==> w < |s.workers| && HasRoom(s.workers[w]) && w !in t.assignees)
    ensures var t := s.tasks[i]; var ch := Chosen(s, i);
      forall w, j :: 0 <= w < |s.workers| && HasRoom(s.workers[w]) && w !in t.assignees && w !in ch && 0 <= j < |ch| ==> ch[j] < w
    ensures var r := AllocateOne(s, i); var ch := Chosen(s, i);
      && |r.workers| == |s.workers|
      && (forall w :: 0 <= w < |s.workers| ==>
            r.workers[w].current == if w in ch then s.workers[w].current + [i] else s.workers[w].current)
  {
    var t := s.tasks[i];
    var needed := t.resources - |t.assignees|;
    var ch := Chosen(s, i);
    assert ch == Candidates(s.workers, t)[..needed];
    FirstCandidates(s.workers, t, needed);
    AllocateOneStaffs(s, i);
    AssignShape(s, i, ch);
  }

  /** What `Assign` does: task `i` appends `chosen` to its staff, and each chosen worker appends `i`. */
  lemma AssignShape(s: State, i: nat, chosen: seq<nat>)
    requires i < |s.tasks|
    ensures var r := Assign(s, i, chosen);
      && |r.tasks| == |s.tasks| && |r.workers| == |s.workers|
      && r.tasks[i] == s.tasks[i].(assignees := s.tasks[i].assignees + chosen)
      && (forall k :: 0 <= k < |s.tasks| && k != i ==> r.tasks[k] == s.tasks[k])
      && (forall w :: 0 <= w < |s.workers| ==>
            r.workers[w].current == if w in chosen then s.workers[w].current + [i] else s.workers[w].current)
  {
  }

  /**
    The first `needed` candidates are workers with room, in roster order, and
    every worker with room that is not on `t` and was passed over comes later
    in the roster than all of them.
   */
  lemma FirstCandidates(ws: seq<Worker>, t: Task, needed: nat)
    requires needed <= |Candidates(ws, t)|
    ensures var ch := Candidates(ws, t)[..needed];
      && StrictlyIncreasing(ch)
      && (forall w :: w in ch ==> w < |ws| && HasRoom(ws[w]) && w !in t.assignees)
      && (forall w, j :: 0 <= w < |ws| && HasRoom(ws[w]) && w !in t.assignees && w !in ch && 0 <= j < |ch| ==> ch[j] < w)
  {
    var c := Candidates(ws, t);
    var ch := c[..needed];
    forall w, j | 0 <= w < |ws| && HasRoom(ws[w]) && w !in t.assignees && w !in ch && 0 <= j < |ch|
      ensures ch[j] < w
    {
      assert IsCandidate(ws, t, w);
      var m :| 0 <= m < |c| && c[m] == w;
      assert ch[j] == c[j];
      assert m >= needed;
    }
  }

  // ---------------------------------------------------------------------
  // What allocation leaves alone
  // ---------------------------------------------------------------------

  /**
    `r` differs from `s` only in staffing: every task keeps its id, duration,
    resources and completion, its staff can only grow by appending, and a
    task that was not pending keeps its staff.
   */
  predicate StaffingOnly(s: State, r: State)
  {
    && |r.tasks| == |s.tasks|
    && forall k :: 0 <= k < |s.tasks| ==>
         && r.tasks[k] == s.tasks[k].(assignees := r.tasks[k].assignees)
         && s.tasks[k].assignees <= r.tasks[k].assignees
         && (!IsPending(s.tasks[k]) ==> r.tasks[k] == s.tasks[k])
  }

  lemma {:induction false} AllocateSeqStaffingOnly(s: State, ps: seq<nat>)
    requires Inv(s)
    requires forall j :: 0 <= j < |ps| ==> ps[j] < |s.tasks|
    ensures StaffingOnly(s, AllocateSeq(s, ps))
    decreases |ps|
  {
    if ps != [] {
      var front := ps[..|ps| - 1];
      var m := AllocateSeq(s, front);
      var i := ps[|ps| - 1];
      AllocateSeqStaffingOnly(s, front);
      AllocateSeqPreservesInv(s, front);
      var r := AllocateOne(m, i);
      assert TaskOk(m.tasks[i], i, |m.workers|);
      if 0 < m.tasks[i].resources - |m.tasks[i].assignees| <= |Candidates(m.workers, m.tasks[i])| {
        StaffedOnlyFromEmpty(m, i);
      }
      forall k | 0 <= k < |s.tasks|
        ensures r.tasks[k] == s.tasks[k].(assignees := r.tasks[k].assignees)
        ensures s.tasks[k].assignees <= r.tasks[k].assignees
        ensures !IsPending(s.tasks[k]) ==> r.tasks[k] == s.tasks[k]
      {
        assert m.tasks[k] == s.tasks[k].(assignees := m.tasks[k].assignees);
      }
    }
  }

  /** The allocation phase never changes a duration or a completion flag (t2.py:62-65). */
  lemma AllocateStaffingOnly(s: State)
    requires Inv(s)
    ensures StaffingOnly(s, AllocateAll(s))
  {
    AllocateSeqStaffingOnly(s, Pending(s.tasks));
  }

  /**
    A saturated roster starves the backlog: when no worker has room,
    allocation changes nothing, and across the whole step every unstaffed
    task stays exactly as it was.
   */
  lemma SaturatedRosterStarves(s: State)
    requires forall w :: 0 <= w < |s.workers| ==> !HasRoom(s.workers[w])
    ensures AllocateAll(s) == s
    ensures forall i :: 0 <= i < |s.tasks| && s.tasks[i].assignees == [] ==> StepSpec(s).tasks[i] == s.tasks[i]
  {
    SaturatedSeq(s, Pending(s.tasks));
  }

  lemma {:induction false} SaturatedSeq(s: State, ps: seq<nat>)
    requires forall w :: 0 <= w < |s.workers| ==> !HasRoom(s.workers[w])
    requires forall j :: 0 <= j < |ps| ==> ps[j] < |s.tasks|
    ensures AllocateSeq(s, ps) == s
    decreases |ps|
  {
    if ps != [] {
      SaturatedSeq(s, ps[..|ps| - 1]);
      NoRoomNoCandidates(s.workers, s.tasks[ps[|ps| - 1]], |s.workers|);
    }
  }

  lemma {:induction false} NoRoomNoCandidates(ws: seq<Worker>, t: Task, n: nat)
    requires n <= |ws|
    requires forall w :: 0 <= w < |ws| ==> !HasRoom(ws[w])
    ensures CandidatesBelow(ws, t, n) == []
  {
    if n > 0 {
      NoRoomNoCandidates(ws, t, n - 1);
    }
  }

  // ---------------------------------------------------------------------
  // The roster
  // ---------------------------------------------------------------------

  /** `r` has the same workers as `s`, in the same order, with the same names and capacities. */
  predicate SameRoster(s: State, r: State)
  {
    && |r.workers| == |s.workers|
    && forall w :: 0 <= w < |s.workers| ==>
         r.workers[w].name == s.workers[w].name && r.workers[w].capacity == s.workers[w].capacity
  }

  /** The allocation loop only appends to workers' lists; no worker's name or capacity changes (t2.py:57-65). */
  lemma {:induction false} AllocateSeqKeepsRoster(s: State, ps: seq<nat>)
    requires forall j :: 0 <= j < |ps| ==> ps[j] < |s.tasks|
    ensures SameRoster(s, AllocateSeq(s, ps))
    decreases |ps|
  {
    if ps != [] {
      AllocateSeqKeepsRoster(s, ps[..|ps| - 1]);
    }
  }

  /** A whole step changes no worker's name or capacity (t2.py:50-92). */
  lemma StepKeepsRoster(s: State)
    ensures SameRoster(s, StepSpec(s))
  {
    AllocateSeqKeepsRoster(s, Pending(s.tasks));
  }

  /** No number of steps changes a worker's name or capacity. */
  lemma StepsKeepRoster(s: State, n: nat)
    ensures SameRoster(s, Steps(s, n))
  {
    StepsKeepRosterFrom(s, 0, n);
    assert Steps(s, 0) == s;
  }

  /** From step `j` to step `n` of a run, the roster stays the same. */
  lemma {:induction false} StepsKeepRosterFrom(s: State, j: nat, n: nat)
    requires j <= n
    ensures SameRoster(Steps(s, j), Steps(s, n))
    decreases n - j
  {
    if j < n {
      StepKeepsRoster(Steps(s, j));
      assert Steps(s, j + 1) == StepSpec(Steps(s, j));
      StepsKeepRosterFrom(s, j + 1, n);
      SameRosterTrans(Steps(s, j), Steps(s, j + 1), Steps(s, n));
    }
  }

  lemma SameRosterTrans(a: State, b: State, c: State)
    requires SameRoster(a, b) && SameRoster(b, c)
    ensures SameRoster(a, c)
  {
  }

  /**
    After any number of steps from start-up, the roster is still Agent 1,
    Agent 2 and Agent 3 in that order, and each holds at most its configured
    capacity of 2, 1 and 2 tasks (t2.py:42-48, 60).
   */
  lemma ConfiguredCapacityKept(durations: seq<int>, resources: seq<int>, n: nat)
    requires ValidDraws(durations, resources)
    ensures var r := Steps(InitialState(durations, resources), n);
      && |r.workers| == |Configs|
      && forall w :: 0 <= w < |Configs| ==>
           r.workers[w].name == Configs[w].1 && |r.workers[w].current| <= Configs[w].0
  {
    var s := InitialState(durations, resources);
    var r := Steps(s, n);
    StepsKeepRoster(s, n);
    StepsPreserveInv(s, n);
    forall w | 0 <= w < |Configs|
      ensures r.workers[w].name == Configs[w].1 && |r.workers[w].current| <= Configs[w].0
    {
      assert s.workers[w] == NewWorker(Configs[w].0, Configs[w].1);
      assert WorkerOk(r.workers[w], |r.tasks|);
    }
  }

  // ---------------------------------------------------------------------
  // Execution
  // ---------------------------------------------------------------------

  /** Execution and cleanup keep the invariant (t2.py:68-92). */
  lemma ExecutePreservesInv(s: State)
    requires Inv(s)
    ensures Inv(ExecuteSpec(s))
  {
    var r := ExecuteSpec(s);
    forall k | 0 <= k < |r.tasks| ensures TaskOk(r.tasks[k], k, |r.workers|) {
      assert TaskOk(s.tasks[k], k, |s.workers|);
    }
    forall w | 0 <= w < |r.workers| ensures WorkerOk(r.workers[w], |r.tasks|) {
      assert WorkerOk(s.workers[w], |s.tasks|);
    }
    forall w, k | 0 <= w < |r.workers| && 0 <= k < |r.tasks| ensures Linked(r, w, k) {
      assert Linked(s, w, k);
    }
  }

  /** A whole step keeps the invariant: in particular every worker stays within its capacity. */
  lemma StepPreservesInv(s: State)
    requires Inv(s)
    ensures Inv(StepSpec(s))
  {
    AllocatePreservesInv(s);
    ExecutePreservesInv(AllocateAll(s));
  }

  lemma {:induction false} StepsPreserveInv(s: State, n: nat)
    requires Inv(s)
    ensures Inv(Steps(s, n))
  {
    if n > 0 {
      StepsPreserveInv(s, n - 1);
      StepPreservesInv(Steps(s, n - 1));
    }
  }

  /**
    One step advances every staffed, uncompleted task by exactly one unit,
    however many workers it has (t2.py:82-86); a task that is still unstaffed
    after allocation is left as it was; a completed task never changes again,
    and keeps its staff. Staff is never taken away.
   */
  lemma StepAdvancesOnce(s: State, i: nat)
    requires Inv(s) && i < |s.tasks|
    ensures AdvancedOnce(s.tasks[i], StepSpec(s).tasks[i])
  {
    AllocateStaffingOnly(s);
    assert TaskOk(s.tasks[i], i, |s.workers|);
  }

  /** How one step may change a task whose duration is at least 1 while it is not completed. */
  predicate AdvancedOnce(t: Task, t': Task)
  {
    && t.assignees <= t'.assignees
    && t'.id == t.id && t'.resources == t.resources
    && (t.completed ==> t' == t)
    && (!t.completed && |t'.assignees| > 0 ==>
          t'.duration == t.duration - 1 && (t'.completed <==> t'.duration == 0))
    && (!t.completed && |t'.assignees| == 0 ==> t' == t)
  }

  /**
    Once a task is completed by a step it is gone from every worker's list
    by the end of that same step (t2.py:85-86, 92), but it keeps its staff.
   */
  lemma StepRetiresCompleted(s: State)
    requires Inv(s)
    ensures var r := StepSpec(s);
      forall i, w :: 0 <= i < |r.tasks| && 0 <= w < |r.workers| && r.tasks[i].completed ==>
        i !in r.workers[w].current && |r.tasks[i].assignees| == r.tasks[i].resources
  {
    var r := StepSpec(s);
    StepPreservesInv(s);
    forall i, w | 0 <= i < |r.tasks| && 0 <= w < |r.workers| && r.tasks[i].completed
      ensures i !in r.workers[w].current && |r.tasks[i].assignees| == r.tasks[i].resources
    {
      assert Linked(r, w, i);
      assert TaskOk(r.tasks[i], i, |r.workers|);
    }
  }

  /** Step `j + 1` of a run started under the invariant advances every task once. */
  lemma StepsAdvanceOnce(s: State, i: nat, j: nat)
    requires Inv(s) && i < |s.tasks|
    ensures i < |Steps(s, j).tasks|
    ensures AdvancedOnce(Steps(s, j).tasks[i], Steps(s, j + 1).tasks[i])
  {
    StepsPreserveInv(s, j);
    StepAdvancesOnce(Steps(s, j), i);
  }

  /**
    A task staffed and uncompleted with `d` units left is completed after
    exactly `d` steps: before that it loses one unit per step, and after that
    it stays at zero. Cooperation never makes a single task finish sooner.
   */
  lemma StaffedTaskFinishes(s: State, i: nat, n: nat)
    requires Inv(s) && i < |s.tasks| && Active(s.tasks[i])
    ensures |Steps(s, n).tasks| == |s.tasks|
    ensures FinishedAfter(s.tasks[i].duration, n, Steps(s, n).tasks[i])
  {
    var ts := History(s, i, n);
    forall j | 0 <= j < |ts| - 1 ensures AdvancedOnce(ts[j], ts[j + 1]) {
      HistoryAdvances(s, i, n, j);
    }
    assert ts[0] == s.tasks[i];
    assert TaskOk(s.tasks[i], i, |s.workers|);
    HistoryFinishes(s.tasks[i].duration, ts);
    assert ts[n] == Steps(s, n).tasks[i];
  }

  /** Task `i` after each of the first `n` steps, starting from `s`. */
  function History(s: State, i: nat, n: nat): (r: seq<Task>)
    requires i < |s.tasks|
    ensures |r| == n + 1
  {
    seq(n + 1, k requires 0 <= k <= n => Steps(s, k).tasks[i])
  }

  /** Consecutive entries of a history are one step apart. */
  lemma HistoryAdvances(s: State, i: nat, n: nat, j: nat)
    requires Inv(s) && i < |s.tasks| && j < n
    ensures AdvancedOnce(History(s, i, n)[j], History(s, i, n)[j + 1])
  {
    StepsAdvanceOnce(s, i, j);
    var h := History(s, i, n);
    assert h[j] == Steps(s, j).tasks[i];
    assert h[j + 1] == Steps(s, j + 1).tasks[i];
  }

  /**
    A history of one task, one entry per step, in which each step advanced
    it once: if it started staffed with `d` units left, its last entry is
    where `FinishedAfter` says it is.
   */
  lemma {:induction false} HistoryFinishes(d: int, ts: seq<Task>)
    requires |ts| > 0 && FinishedAfter(d, 0, ts[0])
    requires forall j :: 0 <= j < |ts| - 1 ==> AdvancedOnce(ts[j], ts[j + 1])
    ensures FinishedAfter(d, |ts| - 1, ts[|ts| - 1])
    decreases |ts|
  {
    if |ts| > 1 {
      var m := |ts| - 2;
      var front := ts[..m + 1];
      HistoryFinishes(d, front);
      assert front[m] == ts[m];
      FinishedAfterNext(d, m, ts[m], ts[m + 1]);
    }
  }

  /**
    After `n` steps a task that started staffed with `d` units left is still
    staffed, has `d - n` units left (0 once `n >= d`), and is completed
    exactly when `n >= d`.
   */
  predicate FinishedAfter(d: int, n: nat, t: Task)
  {
    && |t.assignees| > 0
    && (n <= d ==> t.duration == d - n)
    && (n >= d ==> t.duration == 0)
    && (t.completed <==> n >= d)
  }

  lemma FinishedAfterNext(d: int, n: nat, t: Task, t': Task)
    ensures FinishedAfter(d, n, t) && AdvancedOnce(t, t') ==> FinishedAfter(d, n + 1, t')
  {
    if FinishedAfter(d, n, t) && AdvancedOnce(t, t') {
      assert |t.assignees| <= |t'.assignees|;
    }
  }

  // ---------------------------------------------------------------------
  // Colours
  // ---------------------------------------------------------------------

  /** Some other worker is on task `t` besides `w`. */
  predicate HasPartner(t: Task, w: nat)
  {
    exists v :: v in t.assignees && v != w
  }

  /** A task a worker holds needs several workers exactly when someone else is on it too. */
  lemma SharedIffMultiResource(s: State, w: nat, i: nat)
    requires Inv(s) && w < |s.workers| && i in s.workers[w].current
    ensures i < |s.tasks|
    ensures s.tasks[i].resources > 1 <==> HasPartner(s.tasks[i], w)
    ensures s.tasks[i].resources <= 1 <==> s.tasks[i].assignees == [w]
  {
    assert WorkerOk(s.workers[w], |s.tasks|);
    assert Linked(s, w, i);
    var t := s.tasks[i];
    assert TaskOk(t, i, |s.workers|);
    var a := t.assignees;
    if t.resources > 1 {
      assert a[0] < a[1];
      if a[0] == w {
        assert a[1] in a;
      } else {
        assert a[0] in a;
      }
      assert a != [w];
    } else {
      assert |a| == 1 && a == [a[0]];
      assert !HasPartner(t, w);
    }
  }

  /**
    The colour a step gives a worker says what it held when execution began
    (t2.py:71-79, 89): grey when it held nothing, magenta when another worker
    shared one of its tasks, cyan when it was alone on every task it held.
    A grey worker holds nothing at the end of the step.
   */
  lemma StepColorMeaning(s: State, w: nat)
    requires Inv(s) && w < |s.workers|
    ensures var a := AllocateAll(s); var held := a.workers[w].current; var c := StepSpec(s).workers[w].color;
      && (c == Grey <==> held == [])
      && (c == Grey ==> StepSpec(s).workers[w].current == [])
      && (c == Magenta <==> exists i :: i in held && i < |a.tasks| && HasPartner(a.tasks[i], w))
      && (c == Cyan <==>
            held != [] && forall i :: i in held ==> i < |a.tasks| && a.tasks[i].assignees == [w])
  {
    var a := AllocateAll(s);
    AllocatePreservesInv(s);
    var held := a.workers[w].current;
    forall i | i in held
      ensures i < |a.tasks|
      ensures a.tasks[i].resources > 1 <==> HasPartner(a.tasks[i], w)
      ensures a.tasks[i].resources <= 1 <==> a.tasks[i].assignees == [w]
    {
      SharedIffMultiResource(a, w, i);
    }
    if Cooperating(held, a.tasks) {
      var j :| 0 <= j < |held| && held[j] < |a.tasks| && a.tasks[held[j]].resources > 1;
      assert held[j] in held;
    }
    if exists i :: i in held && i < |a.tasks| && HasPartner(a.tasks[i], w) {
      var i :| i in held && i < |a.tasks| && HasPartner(a.tasks[i], w);
      var j :| 0 <= j < |held| && held[j] == i;
      assert Cooperating(held, a.tasks);
    }
  }
}
