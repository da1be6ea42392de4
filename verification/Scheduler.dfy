/**
  The scheduler of src/lib/scheduler.ts. A timer starts a tick every few seconds; a tick walks the task map
  and awaits each due task, so several ticks can be half-way through the map, each with the time at which
  it started.
  */
module Scheduler {
  import opened Wrappers

  datatype LastResult = LastResult(ok: bool, message: string, timestamp: int)

  datatype Task = Task(intervalMs: nat, lastRun: Option<int>, nextRun: int, running: bool, lastResult: Option<LastResult>)

  /** `enabled` has the ids of the tasks whose setting is on. */
  predicate Due(tasks: map<string, Task>, id: string, now: int, enabled: set<string>) {
    id in tasks && !tasks[id].running && now >= tasks[id].nextRun && id in enabled
  }

  /** The position of the first due task in what a tick has still to walk. */
  function FirstDue(tasks: map<string, Task>, todo: seq<string>, now: int, enabled: set<string>): (k: nat)
    ensures k <= |todo|
    ensures k < |todo| ==> Due(tasks, todo[k], now, enabled)
    ensures forall i :: 0 <= i < k ==> !Due(tasks, todo[i], now, enabled)
  {
    if todo == [] || Due(tasks, todo[0], now, enabled) then 0
    else 1 + FirstDue(tasks, todo[1..], now, enabled)
  }

  function Begun(task: Task): Task {
    task.(running := true)
  }

  /** What the `finally` block and the result leave behind, for the tick that started at `now`. */
  function Ended(task: Task, now: int, ok: bool, message: string): Task {
    Task(task.intervalMs, Some(now), now + task.intervalMs, false, Some(LastResult(ok, message, now)))
  }

  class TaskTable {
    var tasks: map<string, Task>

    /** The loop of a tick from one await to the next: skips tasks that are not due and begins the first that is. */
    method Walk(todo: seq<string>, now: int, enabled: set<string>) returns (awaiting: Option<string>, rest: seq<string>)
      modifies this
      ensures var k := FirstDue(old(tasks), todo, now, enabled);
        if k == |todo| then awaiting == None && rest == [] && tasks == old(tasks)
        else awaiting == Some(todo[k]) && rest == todo[k + 1..] &&
             tasks == old(tasks)[todo[k] := Begun(old(tasks)[todo[k]])]
    {
      var i := 0;
      while i < |todo|
        invariant 0 <= i <= |todo|
        invariant tasks == old(tasks)
        invariant FirstDue(tasks, todo, now, enabled) == i + FirstDue(tasks, todo[i..], now, enabled)
      {
        var id := todo[i];
        assert todo[i..][1..] == todo[i + 1..];
        if id in tasks && !tasks[id].running && now >= tasks[id].nextRun {
          if id in enabled {
            tasks := tasks[id := tasks[id].(running := true)];
            return Some(id), todo[i + 1..];
          }
        }
        i := i + 1;
      }
      return None, [];
    }

    /** The continuation after the await, on success and on a thrown error alike. */
    method FinishRun(id: string, now: int, ok: bool, message: string)
      requires id in tasks
      modifies this
      ensures tasks == old(tasks)[id := Ended(old(tasks)[id], now, ok, message)]
    {
      var task := tasks[id];
      task := task.(lastResult := Some(LastResult(ok, message, now)));
      task := task.(running := false);
      task := task.(lastRun := Some(now));
      task := task.(nextRun := now + task.intervalMs);
      tasks := tasks[id := task];
    }
  }

  // ---------------------------------------------------------------------------
  // Overlapping ticks

  /** `todo` is the part of the task map that the tick has still to walk, apart from the task it awaits. */
  datatype Tick = Tick(now: int, todo: seq<string>, awaiting: Option<string>)

  datatype Run = Run(id: string, now: int)

  /** How the run of a task that a tick awaited came out. */
  datatype Ending = Ending(id: string, now: int, ok: bool, message: string)

  /**
    `runs` lists every task run in the order of the starts, with the time stamp of the tick that started it, and
    `endings` every finished one in the order of the ends.
    */
  datatype System = System(tasks: map<string, Task>, ticks: seq<Tick>, runs: seq<Run>, endings: seq<Ending>)

  datatype Step =
    | StartTick(now: int, order: seq<string>)
    | Resume(tick: nat, enabled: set<string>)
    | Complete(tick: nat, ok: bool, message: string)

  predicate Possible(s: System, step: Step) {
    match step
    case StartTick(_, _) => true
    case Resume(t, _) => t < |s.ticks| && s.ticks[t].awaiting == None
    case Complete(t, _, _) => t < |s.ticks| && s.ticks[t].awaiting.Some? && s.ticks[t].awaiting.value in s.tasks
  }

  function Resumed(s: System, t: nat, enabled: set<string>): System
    requires t < |s.ticks|
  {
    var tick := s.ticks[t];
    var k := FirstDue(s.tasks, tick.todo, tick.now, enabled);
    if k == |tick.todo| then s.(ticks := s.ticks[t := tick.(todo := [])])
    else
      var id := tick.todo[k];
      System(s.tasks[id := Begun(s.tasks[id])],
             s.ticks[t := Tick(tick.now, tick.todo[k + 1..], Some(id))],
             s.runs + [Run(id, tick.now)], s.endings)
  }

  function Completed(s: System, t: nat, ok: bool, message: string): System
    requires Possible(s, Complete(t, ok, message))
  {
    var tick := s.ticks[t];
    var id := tick.awaiting.value;
    s.(tasks := s.tasks[id := Ended(s.tasks[id], tick.now, ok, message)],
       ticks := s.ticks[t := tick.(awaiting := None)],
       endings := s.endings + [Ending(id, tick.now, ok, message)])
  }

  function Next(s: System, step: Step): System
    requires Possible(s, step)
  {
    match step
    case StartTick(now, order) => s.(ticks := s.ticks + [Tick(now, order, None)])
    case Resume(t, enabled) => Resumed(s, t, enabled)
    case Complete(t, ok, message) => Completed(s, t, ok, message)
  }

  /** The state after a run that begins with the given tasks; a step that cannot happen is skipped. */
  function Exec(tasks: map<string, Task>, steps: seq<Step>): System {
    if steps == [] then System(tasks, [], [], [])
    else
      var s := Exec(tasks, steps[..|steps| - 1]);
      var step := steps[|steps| - 1];
      if Possible(s, step) then Next(s, step) else s
  }

  /** The task table as initScheduler leaves it: nothing is running, nothing has run, every interval is positive. */
  predicate Initial(tasks: map<string, Task>) {
    forall id <- tasks :: tasks[id].intervalMs > 0 && !tasks[id].running && tasks[id].lastRun == None && tasks[id].lastResult == None
  }

  predicate Awaits(s: System, t: int, id: string) {
    0 <= t < |s.ticks| && s.ticks[t].awaiting == Some(id)
  }

  ghost predicate Exclusive(s: System) {
    && (forall t, id :: Awaits(s, t, id) ==> id in s.tasks && s.tasks[id].running)
    && (forall id <- s.tasks :: s.tasks[id].running ==> exists t :: Awaits(s, t, id))
    && (forall t, u, id :: Awaits(s, t, id) && Awaits(s, u, id) ==> t == u)
  }

  ghost predicate Spaced(s: System) {
    && (forall t, id :: Awaits(s, t, id) ==> id in s.tasks && s.ticks[t].now >= s.tasks[id].nextRun)
    && (forall i :: 0 <= i < |s.runs| ==> s.runs[i].id in s.tasks)
    && (forall i :: 0 <= i < |s.runs| && !s.tasks[s.runs[i].id].running ==>
          s.runs[i].now + s.tasks[s.runs[i].id].intervalMs <= s.tasks[s.runs[i].id].nextRun)
    && (forall i, t :: 0 <= i < |s.runs| && Awaits(s, t, s.runs[i].id) ==> s.runs[i].now <= s.ticks[t].now)
    && (forall i, j :: 0 <= i < j < |s.runs| && s.runs[i].id == s.runs[j].id ==>
          s.runs[i].now + s.tasks[s.runs[i].id].intervalMs <= s.runs[j].now)
  }

  function LastEnding(endings: seq<Ending>, id: string): Option<Ending> {
    if endings == [] then None
    else if endings[|endings| - 1].id == id then Some(endings[|endings| - 1])
    else LastEnding(endings[..|endings| - 1], id)
  }

  /** What a task shows is what its latest ending says, if there is one. */
  predicate Shows(task: Task, last: Option<Ending>) {
    match last
    case None => task.lastRun == None && task.lastResult == None
    case Some(e) =>
      && task.lastRun == Some(e.now) && task.nextRun == e.now + task.intervalMs
      && task.lastResult == Some(LastResult(e.ok, e.message, e.now))
  }

  ghost predicate Stamped(s: System) {
    forall id <- s.tasks :: s.tasks[id].intervalMs > 0 && Shows(s.tasks[id], LastEnding(s.endings, id))
  }

  ghost predicate Inv(s: System) {
    Exclusive(s) && Spaced(s) && Stamped(s)
  }

  lemma ExclusiveNext(s: System, step: Step)
    requires Exclusive(s) && Possible(s, step)
    ensures Exclusive(Next(s, step))
  {
    var s' := Next(s, step);
    forall id <- s'.tasks | s'.tasks[id].running
      ensures exists t :: Awaits(s', t, id)
    {
      if s.tasks[id].running {
        var t :| Awaits(s, t, id);
        assert Awaits(s', t, id);
      } else {
        assert Awaits(s', step.tick, id);
      }
    }
    match step
    case StartTick(_, _) =>
      assert forall t, id :: Awaits(s', t, id) ==> Awaits(s, t, id);
    case Resume(r, _) =>
      assert forall t, id :: Awaits(s', t, id) ==> Awaits(s, t, id) || (t == r && !s.tasks[id].running);
    case Complete(r, _, _) =>
      assert Awaits(s, r, s.ticks[r].awaiting.value);
      assert forall t, id :: Awaits(s', t, id) ==> Awaits(s, t, id) && t != r;
  }

  lemma SpacedResume(s: System, r: nat, enabled: set<string>)
    requires Exclusive(s) && Spaced(s) && Possible(s, Resume(r, enabled))
    ensures Spaced(Resumed(s, r, enabled))
  {
    var s' := Resumed(s, r, enabled);
    assert forall t, id :: Awaits(s', t, id) ==> Awaits(s, t, id) || (t == r && !s.tasks[id].running);
  }

  lemma SpacedComplete(s: System, r: nat, ok: bool, message: string)
    requires Exclusive(s) && Spaced(s) && Stamped(s) && Possible(s, Complete(r, ok, message))
    ensures Spaced(Completed(s, r, ok, message))
  {
    var s' := Completed(s, r, ok, message);
    assert Awaits(s, r, s.ticks[r].awaiting.value);
    assert forall t, id :: Awaits(s', t, id) ==> Awaits(s, t, id) && t != r;
  }

  lemma SpacedNext(s: System, step: Step)
    requires Inv(s) && Possible(s, step)
    ensures Spaced(Next(s, step))
  {
    match step
    case StartTick(_, _) =>
      assert forall t, id :: Awaits(Next(s, step), t, id) ==> Awaits(s, t, id);
    case Resume(r, enabled) => SpacedResume(s, r, enabled);
    case Complete(r, ok, message) => SpacedComplete(s, r, ok, message);
  }

  lemma LastEndingAppend(endings: seq<Ending>, e: Ending, id: string)
    ensures LastEnding(endings + [e], id) == if e.id == id then Some(e) else LastEnding(endings, id)
  {
    assert (endings + [e])[..|endings|] == endings;
  }

  lemma StampedNext(s: System, step: Step)
    requires Stamped(s) && Possible(s, step)
    ensures Stamped(Next(s, step))
  {
    if step.Complete? {
      var tick := s.ticks[step.tick];
      forall id <- s.tasks
        ensures Shows(Next(s, step).tasks[id], LastEnding(Next(s, step).endings, id))
      {
        LastEndingAppend(s.endings, Ending(tick.awaiting.value, tick.now, step.ok, step.message), id);
      }
    }
  }

  lemma {:induction false} InvExec(tasks: map<string, Task>, steps: seq<Step>)
    requires Initial(tasks)
    ensures Inv(Exec(tasks, steps))
  {
    if steps != [] {
      var before, step := steps[..|steps| - 1], steps[|steps| - 1];
      InvExec(tasks, before);
      var s := Exec(tasks, before);
      if Possible(s, step) {
        ExclusiveNext(s, step);
        SpacedNext(s, step);
        StampedNext(s, step);
      }
    }
  }

  /** However ticks overlap: a task is marked running exactly while one tick awaits it, and never two do. */
  lemma OneTickPerTask(tasks: map<string, Task>, steps: seq<Step>, id: string)
    requires Initial(tasks)
    ensures var s := Exec(tasks, steps);
      && (id in s.tasks && s.tasks[id].running <==> exists t :: Awaits(s, t, id))
      && (forall t, u :: Awaits(s, t, id) && Awaits(s, u, id) ==> t == u)
  {
    InvExec(tasks, steps);
  }

  /** The time stamps of any two runs of a task lie at least its interval apart, stale ticks included. */
  lemma RunsAreSpaced(tasks: map<string, Task>, steps: seq<Step>, i: nat, j: nat)
    requires Initial(tasks)
    requires i < j < |Exec(tasks, steps).runs| && Exec(tasks, steps).runs[i].id == Exec(tasks, steps).runs[j].id
    ensures var s := Exec(tasks, steps);
      s.runs[i].id in s.tasks && s.runs[i].now + s.tasks[s.runs[i].id].intervalMs <= s.runs[j].now
  {
    InvExec(tasks, steps);
  }

  /** `nextRun` moves only when a run of the task ends, and then forward by at least the interval. */
  lemma NextRunIncreases(tasks: map<string, Task>, steps: seq<Step>, step: Step, id: string)
    requires Initial(tasks) && Possible(Exec(tasks, steps), step) && id in Exec(tasks, steps).tasks
    ensures var s := Exec(tasks, steps);
      var s' := Next(s, step);
      && id in s'.tasks && s'.tasks[id].intervalMs == s.tasks[id].intervalMs > 0
      && if step.Complete? && Awaits(s, step.tick, id)
         then s'.tasks[id].nextRun >= s.tasks[id].nextRun + s.tasks[id].intervalMs
         else s'.tasks[id].nextRun == s.tasks[id].nextRun
  {
    InvExec(tasks, steps);
    var s := Exec(tasks, steps);
    if step.Complete? {
      assert Awaits(s, step.tick, s.ticks[step.tick].awaiting.value);
    }
  }

  /**
    The status shown for a task is outcome, message and time stamp of its latest finished run, which also fixed the
    next due time; a task without a finished run shows none.
    */
  lemma StatusIsOfLastRun(tasks: map<string, Task>, steps: seq<Step>, id: string)
    requires Initial(tasks) && id in Exec(tasks, steps).tasks
    ensures var s := Exec(tasks, steps);
      var task := s.tasks[id];
      match LastEnding(s.endings, id)
      case None => task.lastRun == None && task.lastResult == None
      case Some(e) =>
        && task.lastRun == Some(e.now) && task.nextRun == e.now + task.intervalMs
        && task.lastResult == Some(LastResult(e.ok, e.message, e.now))
  {
    InvExec(tasks, steps);
  }

  // ---------------------------------------------------------------------------
  // How often a task can run

  /** How many of the runs are of task `id` with a time stamp from `from` to `to`. */
  function RunsBetween(runs: seq<Run>, id: string, from: int, to: int): nat {
    if runs == [] then 0
    else
      var last := runs[|runs| - 1];
      RunsBetween(runs[..|runs| - 1], id, from, to) + if last.id == id && from <= last.now <= to then 1 else 0
  }

  lemma {:induction false} SpacedRunsFit(runs: seq<Run>, id: string, interval: nat, from: int, to: int)
    requires forall i, j :: 0 <= i < j < |runs| && runs[i].id == runs[j].id == id ==> runs[i].now + interval <= runs[j].now
    ensures RunsBetween(runs, id, from, to) > 0 ==> (RunsBetween(runs, id, from, to) - 1) * interval <= to - from
    decreases |runs|
  {
    if runs != [] {
      var n := |runs| - 1;
      var last := runs[n];
      if last.id == id && from <= last.now <= to {
        var c := RunsBetween(runs[..n], id, from, to);
        RunsBetweenBound(runs[..n], id, from, to, last.now - interval);
        SpacedRunsFit(runs[..n], id, interval, from, last.now - interval);
        if c > 0 {
          OneMore(c, interval, last.now - from);
        }
      } else {
        SpacedRunsFit(runs[..n], id, interval, from, to);
      }
    }
  }

  lemma OneMore(c: nat, interval: nat, length: int)
    requires (c - 1) * interval <= length - interval
    ensures c * interval <= length
  {
  }

  lemma {:induction false} RunsBetweenBound(runs: seq<Run>, id: string, from: int, to: int, bound: int)
    requires bound <= to && forall i :: 0 <= i < |runs| && runs[i].id == id ==> runs[i].now <= bound
    ensures RunsBetween(runs, id, from, bound) == RunsBetween(runs, id, from, to)
  {
    if runs != [] {
      RunsBetweenBound(runs[..|runs| - 1], id, from, to, bound);
    }
  }

  /** In any stretch of time, `n` runs of a task take at least `n - 1` of its intervals. */
  lemma RunRateIsBounded(tasks: map<string, Task>, steps: seq<Step>, id: string, from: int, to: int)
    requires Initial(tasks) && id in Exec(tasks, steps).tasks
    ensures var s := Exec(tasks, steps);
      var n := RunsBetween(s.runs, id, from, to);
      n > 0 ==> (n - 1) * s.tasks[id].intervalMs <= to - from
  {
    InvExec(tasks, steps);
    var s := Exec(tasks, steps);
    SpacedRunsFit(s.runs, id, s.tasks[id].intervalMs, from, to);
  }

  /**
    Resuming a tick begins the first task in front of it that is not running, due and enabled; if there is none, the
    tick is done. No other task changes.
    */
  lemma WalkBeginsFirstDue(s: System, t: nat, enabled: set<string>)
    requires t < |s.ticks| && s.ticks[t].awaiting == None
    ensures
      var s', tick := Resumed(s, t, enabled), s.ticks[t];
      var due := set id | id in s.tasks && !s.tasks[id].running && s.tasks[id].nextRun <= tick.now && id in enabled;
      match s'.ticks[t].awaiting
      case None => s'.tasks == s.tasks && s'.ticks[t].todo == [] && forall id <- tick.todo :: id !in due
      case Some(id) =>
        && id in due && s'.tasks == s.tasks[id := s.tasks[id].(running := true)]
        && exists k :: 0 <= k < |tick.todo| && tick.todo[k] == id && s'.ticks[t].todo == tick.todo[k + 1..]
             && forall i :: 0 <= i < k ==> tick.todo[i] !in due
  {
  }
}
