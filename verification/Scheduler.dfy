/** The round-robin scheduler of src/kernel/sched.c. */
module Scheduler {
  import opened Basics

  const SWITCH_TICK: nat := 10

  /** A task is known by its address. */
  type Task = nat

  /** The statics of the scheduler. */
  datatype State = State(processes: seq<Task>, index: nat, tick: nat, current: Option<Task>)

  /** The state after one timer tick. */
  function Tick(s: State): (s': State)
    requires 0 < |s.processes| && s.index <= |s.processes|
  {
    if s.tick + 1 >= SWITCH_TICK then
      var i := if s.index == |s.processes| then 0 else s.index;
      State(s.processes, i + 1, 0, Some(s.processes[i]))
    else s.(tick := s.tick + 1)
  }

  function Push(s: State, t: Task): State
  {
    s.(processes := s.processes + [t])
  }

  function Remove(s: State, t: Task): State
  {
    s.(processes := WithoutFirst(s.processes, t))
  }

  class Sched {
    var processes: seq<Task>
    var index: nat
    var currentTick: nat
    var currentTask: Option<Task>

    function Abs(): State
      reads this
    {
      State(processes, index, currentTick, currentTask)
    }

    /** sched_init: an empty queue, and a switch on the first tick. */
    constructor ()
      ensures Abs() == State([], 0, SWITCH_TICK - 1, None)
    {
      processes, index, currentTick, currentTask := [], 0, SWITCH_TICK - 1, None;
    }

    /** sched_tick.  With no process it waits for ever; beyond the end it would read past the queue. */
    method TickOnce() returns (t: Option<Task>)
      requires 0 < |processes| && index <= |processes|
      modifies this
      ensures Abs() == Tick(old(Abs())) && t == currentTask
    {
      if currentTick + 1 >= SWITCH_TICK {
        currentTick := 0;
        if index == |processes| {
          index := 0;
        }
        currentTask := Some(processes[index]);
        index := index + 1;
        return currentTask;
      }
      currentTick := currentTick + 1;
      return currentTask;
    }

    method PushTask(t: Task)
      modifies this
      ensures Abs() == Push(old(Abs()), t)
      ensures processes == old(processes) + [t] && index == old(index)
      ensures currentTick == old(currentTick) && currentTask == old(currentTask)
    {
      processes := processes + [t];
    }

    /** sched_remove: the index stays where it is. */
    method RemoveTask(t: Task)
      modifies this
      ensures Abs() == Remove(old(Abs()), t)
    {
      var i := 0;
      while i < |processes|
        invariant i <= |processes| && processes == old(processes) && t !in processes[..i]
      {
        if processes[i] == t {
          WithoutFirstIs(processes, t, i);
          processes := processes[..i] + processes[i + 1..];
          return;
        }
        i := i + 1;
      }
      WithoutFirstIs(processes, t, i);
    }
  }

  // ----- Invariants of push and tick ------------------------------------------------

  /** The scheduler can go on: it has switched to some process, or is about to for the first time. */
  predicate Going(s: State)
  {
    && s.tick < SWITCH_TICK && s.index <= |s.processes|
    && (if s.index == 0 then s.tick == SWITCH_TICK - 1 else s.current.Some?)
  }

  /** And that process still stands where it was switched to. */
  predicate Ready(s: State)
  {
    Going(s) && (s.index > 0 ==> s.current == Some(s.processes[s.index - 1]))
  }

  lemma TickReady(s: State)
    requires Going(s) && s.processes != []
    ensures Going(Tick(s)) && Tick(s).processes == s.processes && Tick(s).index > 0
    ensures Ready(s) || s.tick == SWITCH_TICK - 1 ==> Ready(Tick(s))
  {
  }

  lemma PushReady(s: State, t: Task)
    requires Going(s)
    ensures Going(Push(s, t)) && (Ready(s) ==> Ready(Push(s, t)))
  {
  }

  /** Taking a process out keeps the index inside the queue exactly when it is not there
      or the index is not at the end. */
  lemma RemoveKeepsBound(s: State, t: Task)
    requires s.index <= |s.processes|
    ensures Remove(s, t).index <= |Remove(s, t).processes| <==> t !in s.processes || s.index < |s.processes|
    ensures Going(s) && (t !in s.processes || s.index < |s.processes|) ==> Going(Remove(s, t))
  {
  }

  /** A queue that ends there: the running process is the last one and exits. */
  lemma LastOneExits()
    ensures var s := State([5, 6], 2, 0, Some(6));
      Ready(s) && Remove(s, 6).processes == [5] && Remove(s, 6).index > |Remove(s, 6).processes|
  {
    assert WithoutFirst([5, 6], 6) == [5] by {
      WithoutFirstIs([5, 6], 6, 1);
    }
  }

  // ----- What removal does to the others ---------------------------------------------------

  /** The process that the next switch goes to. */
  function Due(s: State): Task
    requires 0 < |s.processes| && s.index <= |s.processes|
  {
    s.processes[if s.index == |s.processes| then 0 else s.index]
  }

  /** Removing the process at place `i` leaves the next switch as it was exactly when the process stands behind
      the one that is due, or only the due one is left.  When it stands before, as the running one does, the
      due process is passed over in favour of the one behind it. */
  lemma RemovePassesOver(s: State, i: nat)
    requires Distinct(s.processes) && i < |s.processes| && s.index < |s.processes| && |s.processes| > 1
    ensures var n, s' := |s.processes|, Remove(s, s.processes[i]);
      && (Due(s') == Due(s) <==> i > s.index || (i < s.index && n == 2))
      && (i < s.index && s.index + 1 < n ==> Due(s') == s.processes[s.index + 1])
      && (i < s.index && s.index + 1 == n ==> Due(s') == s.processes[if i == 0 then 1 else 0])
  {
    WithoutFirstIs(s.processes, s.processes[i], i);
  }

  /** When the running process is removed, the scheduler goes on as if the process behind it were running:
      that one gets its next turn only after all others. */
  lemma RemovedRunning(s: State)
    requires Ready(s) && 0 < s.index < |s.processes| && Distinct(s.processes)
    ensures var s' := Remove(s, s.processes[s.index - 1]);
      && s'.index == s.index && s'.tick == s.tick
      && Ready(s'.(current := Some(s.processes[s.index])))
      && Distinct(s'.processes) && |s'.processes| == |s.processes| - 1
  {
    WithoutFirstIs(s.processes, s.processes[s.index - 1], s.index - 1);
  }

  // ----- Exact fairness ----------------------------------------------------------------

  /** The state after `k` ticks. */
  function Ticks(s: State, k: nat): (r: State)
    requires Going(s) && s.processes != []
    ensures Going(r) && r.processes == s.processes && (k > 0 ==> r.index > 0) && (Ready(s) ==> Ready(r))
  {
    if k == 0 then s else
      var r := Ticks(s, k - 1);
      TickReady(r);
      Tick(r)
  }

  /** How many of the first `k` ticks returned task `t`. */
  function Served(s: State, k: nat, t: Task): nat
    requires Going(s) && s.processes != []
  {
    if k == 0 then 0 else Served(s, k - 1, t) + if Ticks(s, k).current == Some(t) then 1 else 0
  }

  /** Ticks since position 0 of the queue was last switched to. */
  function Clock(s: State): (c: nat)
    requires Ready(s) && s.processes != []
    ensures c < SWITCH_TICK * |s.processes|
  {
    if s.index == 0 then SWITCH_TICK * |s.processes| - 1 else SWITCH_TICK * (s.index - 1) + s.tick
  }

  /** A clock with `m` positions, `k` steps after position `c`. */
  function Spin(c: nat, k: nat, m: nat): (x: nat)
    requires c < m
    ensures x < m
  {
    if k == 0 then c
    else
      var x := Spin(c, k - 1, m);
      if x + 1 == m then 0 else x + 1
  }

  lemma {:induction false} SpinIs(c: nat, k: nat, m: nat)
    requires c < m && k <= m
    ensures Spin(c, k, m) == if c + k < m then c + k else c + k - m
  {
    if k > 0 {
      SpinIs(c, k - 1, m);
    }
  }

  lemma {:induction false} TicksSpin(s: State, k: nat)
    requires Ready(s) && s.processes != []
    ensures Clock(Ticks(s, k)) == Spin(Clock(s), k, SWITCH_TICK * |s.processes|)
    ensures k > 0 ==> Ticks(s, k).current ==
                       Some(s.processes[Spin(Clock(s), k, SWITCH_TICK * |s.processes|) / SWITCH_TICK])
  {
    if k > 0 {
      TicksSpin(s, k - 1);
      var r := Ticks(s, k);
      assert Clock(r) / SWITCH_TICK == r.index - 1;
    }
  }

  /** How many of the positions below `x` belong to queue place `j`. */
  function Owned(x: nat, j: nat): nat
  {
    if x <= SWITCH_TICK * j then 0 else if x <= SWITCH_TICK * (j + 1) then x - SWITCH_TICK * j else SWITCH_TICK
  }

  lemma OwnedStep(x: nat, j: nat)
    ensures Owned(x + 1, j) == Owned(x, j) + if x / SWITCH_TICK == j then 1 else 0
  {
  }

  /** How many of the `k` positions after position `c` of a clock with `m` belong to place `j`. */
  function Passed(c: nat, k: nat, m: nat, j: nat): int
  {
    if c + k < m then Owned(c + k + 1, j) - Owned(c + 1, j)
    else Owned(m, j) - Owned(c + 1, j) + Owned(c + k - m + 1, j)
  }

  lemma PassedStep(c: nat, k: nat, m: nat, j: nat, before: nat, x: nat)
    requires c < m && 0 < k <= m && before == k - 1 && x == Spin(c, k, m)
    ensures Passed(c, k, m, j) == Passed(c, before, m, j) + if x / SWITCH_TICK == j then 1 else 0
  {
    SpinIs(c, k, m);
    OwnedStep(x, j);
  }

  /** Going round, a place is served as often as the positions passed belong to it. */
  lemma {:induction false} ServedIs(s: State, k: nat, j: nat)
    requires Ready(s) && j < |s.processes| && k <= SWITCH_TICK * |s.processes|
    requires forall i :: 0 <= i < |s.processes| && i != j ==> s.processes[i] != s.processes[j]
    ensures Served(s, k, s.processes[j]) == Passed(Clock(s), k, SWITCH_TICK * |s.processes|, j)
  {
    if k > 0 {
      var c, m := Clock(s), SWITCH_TICK * |s.processes|;
      ServedIs(s, k - 1, j);
      TicksSpin(s, k);
      PassedStep(c, k, m, j, k - 1, Spin(c, k, m));
    }
  }

  /** From the next switch on, the places of the queue are served one after the other: place `j`, from the index on, is
      returned for the first time at tick `k`. */
  lemma ServedInTurn(s: State, j: nat, k: nat)
    requires Ready(s) && s.index <= j < |s.processes|
    requires k == if s.index == 0 then 10 * j + 1 else 10 * (j + 1 - s.index) - s.tick
    ensures k > 0 && Ticks(s, k).current == Some(s.processes[j])
    ensures forall i: nat :: 0 < i < k ==>
              exists p: nat :: p < j && (s.index > 0 ==> p + 1 >= s.index)
                               && Ticks(s, i).current == Some(s.processes[p])
  {
    PlaceAt(s, k);
    forall i: nat | 0 < i < k
      ensures exists p: nat :: p < j && (s.index > 0 ==> p + 1 >= s.index)
                               && Ticks(s, i).current == Some(s.processes[p])
    {
      PlaceAt(s, i);
    }
  }

  /** The place that tick `k` returns, before the queue is gone round once. */
  lemma PlaceAt(s: State, k: nat)
    requires Ready(s) && s.processes != [] && k > 0
    requires k + (if s.index == 0 then -1 else 10 * (s.index - 1) + s.tick) < 10 * |s.processes|
    ensures var p: nat := if s.index == 0 then (k - 1) / 10 else (10 * (s.index - 1) + s.tick + k) / 10;
      p < |s.processes| && Ticks(s, k).current == Some(s.processes[p])
  {
    TicksSpin(s, k);
    SpinIs(Clock(s), k, SWITCH_TICK * |s.processes|);
  }

  /** A new process waits at the end of the queue.  The one that is due stays due, unless the index is at the end of the
      queue, where the new one is; and every process that is still to be served in this round is served before it. */
  lemma PushedLast(s: State, t: Task)
    requires s.index <= |s.processes|
    ensures var s', n := Push(s, t), |s.processes|;
      && |s'.processes| == n + 1 && s'.processes[n] == t
      && (forall i :: 0 <= i < n ==> s'.processes[i] == s.processes[i])
      && s'.index == s.index && s'.tick == s.tick && s'.current == s.current
      && Due(s') == if s.index < n then Due(s) else t
  {
  }

  lemma NewcomerWaits(s: State, t: Task, j: nat, k: nat)
    requires Ready(s) && t !in s.processes && s.index <= j < |s.processes|
    requires k == if s.index == 0 then 10 * j + 1 else 10 * (j + 1 - s.index) - s.tick
    ensures k > 0 && Going(Push(s, t)) && Ticks(Push(s, t), k).current == Some(s.processes[j])
    ensures forall i: nat :: 0 < i <= k ==> Ticks(Push(s, t), i).current != Some(t)
  {
    var s' := Push(s, t);
    PushReady(s, t);
    ServedInTurn(s', j, k);
    forall i: nat | 0 < i < k ensures Ticks(s', i).current != Some(t) {
      var p: nat :| p < j && Ticks(s', i).current == Some(s'.processes[p]);
      assert s'.processes[p] == s.processes[p];
    }
  }

  /** In any window of 10·n ticks, each of the n tasks of the queue is returned exactly 10 times. */
  lemma FairWindow(s: State, t: Task)
    requires Ready(s) && t in s.processes
    requires Distinct(s.processes)
    ensures Served(s, 10 * |s.processes|, t) == 10
  {
    var j :| 0 <= j < |s.processes| && s.processes[j] == t;
    ServedIs(s, SWITCH_TICK * |s.processes|, j);
  }

  /** The two states differ in the current process only, until the next switch makes them equal. */
  lemma {:induction false} UntilTheSwitch(s: State, r: State, k: nat)
    requires Going(s) && Going(r) && s.processes != [] && s.index > 0 && r == s.(current := r.current)
    ensures Ticks(s, k) == if s.tick + k < SWITCH_TICK then Ticks(r, k).(current := s.current) else Ticks(r, k)
    ensures s.tick + k < SWITCH_TICK ==> Ticks(r, k) == r.(tick := r.tick + k)
  {
    if k > 0 {
      UntilTheSwitch(s, r, k - 1);
    }
  }

  /** Ticks before the next switch, of `k`. */
  function Before(tick: nat, k: nat): nat
    requires tick < SWITCH_TICK
  {
    if tick + k < SWITCH_TICK then k else SWITCH_TICK - 1 - tick
  }

  lemma {:induction false} ServedButOnce(s: State, r: State, k: nat, t: Task)
    requires Going(s) && Going(r) && s.processes != [] && s.index > 0 && r == s.(current := r.current)
    requires s.current != Some(t)
    ensures Served(s, k, t) + (if r.current == Some(t) then Before(s.tick, k) else 0) == Served(r, k, t)
  {
    if k > 0 {
      ServedButOnce(s, r, k - 1, t);
      UntilTheSwitch(s, r, k);
    }
  }

  /** Fairness after the running process was removed: of the next 10 n ticks, n processes being left, each of them gets
      10, but the one behind the removed process only the s.tick + 1 that remain when it is passed over first.
      From the next switch on FairWindow holds again. */
  lemma RemovedFair(s: State, t: Task)
    requires Ready(s) && 0 < s.index < |s.processes| && Distinct(s.processes)
    requires t in s.processes && t != s.processes[s.index - 1]
    ensures var s' := Remove(s, s.processes[s.index - 1]);
      && Going(s') && Distinct(s'.processes) && t in s'.processes
      && Served(s', SWITCH_TICK * |s'.processes|, t) == (if t == s.processes[s.index] then s.tick + 1 else SWITCH_TICK)
      && Ready(Ticks(s', SWITCH_TICK - s.tick))
  {
    var s' := Remove(s, s.processes[s.index - 1]);
    RemovedRunning(s);
    OthersStay(s.processes, s.processes[s.index - 1]);
    LikeTheNext(s', s'.(current := Some(s.processes[s.index])), t, SWITCH_TICK - s.tick);
  }

  /** A state that is fair but for its current process. */
  lemma LikeTheNext(s: State, r: State, t: Task, k: nat)
    requires Going(s) && Ready(r) && s.index > 0 && r == s.(current := r.current) && Distinct(s.processes)
    requires t in s.processes && s.current != Some(t) && k == SWITCH_TICK - s.tick
    ensures Served(s, SWITCH_TICK * |s.processes|, t) == (if r.current == Some(t) then s.tick + 1 else SWITCH_TICK)
    ensures Ready(Ticks(s, k))
  {
    FairWindow(r, t);
    ServedButOnce(s, r, SWITCH_TICK * |s.processes|, t);
    UntilTheSwitch(s, r, k);
  }
}
