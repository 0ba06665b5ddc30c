/**
 * `SchedulerService`: a table of scheduled scrapes, keyed by task id, and
 * the minute tick that runs the ones that are due.
 *
 * The JavaScript `Map` is the map `tasks` with the sequence `order` of its
 * keys in insertion order (the order `values()` walks). Times are
 * milliseconds since the epoch, given as integers. Running a task (looking
 * up its project, creating the scrape job and scraping) is the function
 * `exec`, which says how the run ended and when.
 */
module Scheduling {
  import opened Wrappers
  import opened Text
  import opened OrderedMaps
  import opened Seqs

  /** `ScheduledTask`; `lastRun` is `None` until a run completes. */
  datatype Task = Task(
    id: string,
    projectId: int,
    cronExpression: string,
    isActive: bool,
    lastRun: Option<int>,
    nextRun: int,
    watchForChanges: bool)

  /**
   * How `executeTask` ended: it threw, it returned early because the project
   * is missing, or it ran the scrape; with the time it returned.
   */
  datatype Execution = Threw | ProjectMissing(finishedAt: int) | Ran(finishedAt: int)

  const Hour: nat := 60 * 60 * 1000
  const Day: nat := 24 * Hour

  /**
   * `updateNextRun`'s interval for a cron string: only four strings are
   * recognised, each as a whole; any other string runs daily.
   */
  function Interval(cronExpression: string): (ms: nat)
    ensures ms > 0
    ensures ms in {Hour, 6 * Hour, Day, 7 * Day}
    ensures cronExpression == "0 */1 * * *" ==> ms == Hour
    ensures cronExpression == "0 */6 * * *" ==> ms == 6 * Hour
    ensures cronExpression == "0 0 * * 0" ==> ms == 7 * Day
    ensures cronExpression !in {"0 */1 * * *", "0 */6 * * *", "0 0 * * 0"} ==> ms == Day
  {
    if cronExpression == "0 */1 * * *" then Hour
    else if cronExpression == "0 */6 * * *" then 6 * Hour
    else if cronExpression == "0 0 * * *" then Day
    else if cronExpression == "0 0 * * 0" then 7 * Day
    else Day
  }

  /** The id `scheduleTask` gives: `task_<projectId>_<now>`. */
  function TaskKey(projectId: int, now: int): string {
    "task_" + IntToString(projectId) + "_" + IntToString(now)
  }

  /**
   * Two schedules get the same id exactly when they are for the same
   * project at the same millisecond.
   */
  lemma TaskKeyInjective(p: int, n: int, q: int, m: int)
    requires TaskKey(p, n) == TaskKey(q, m)
    ensures p == q && n == m
  {
    var a, b, c, d := IntToString(p), IntToString(n), IntToString(q), IntToString(m);
    KeyShape(a, b);
    KeyShape(c, d);
    assert |a| == |c|;
    SplitAt("task_" + a + "_", b, "task_" + c + "_", d);
    SplitAt("task_" + a, "_", "task_" + c, "_");
    SplitAt("task_", a, "task_", c);
    IntToStringInjective(p, q);
    IntToStringInjective(n, m);
  }

  /** In `task_<a>_<b>`, the first `_` after the prefix ends `a`. */
  lemma KeyShape(a: string, b: string)
    requires forall k :: 0 <= k < |a| ==> IsDigit(a[k]) || a[k] == '-'
    ensures var key := "task_" + a + "_" + b;
      && key[5 + |a|] == '_'
      && forall j :: 5 <= j < 5 + |a| ==> key[j] != '_'
  {
  }

  /** Two concatenations with first parts of one length agree part by part. */
  lemma SplitAt(x: string, y: string, x': string, y': string)
    requires x + y == x' + y' && |x| == |x'|
    ensures x == x' && y == y'
  {
    assert x == (x + y)[..|x|] && x' == (x' + y')[..|x|];
    assert y == (x + y)[|x|..] && y' == (x' + y')[|x|..];
  }

  /** The `ScheduledTask` that `scheduleTask` stores: active, never run, due one interval from now. */
  function NewTask(id: string, projectId: int, cronExpression: string, watchForChanges: bool, now: int): (t: Task)
    ensures t.id == id && t.projectId == projectId && t.cronExpression == cronExpression
    ensures t.isActive && t.lastRun.None? && t.watchForChanges == watchForChanges
    ensures t.nextRun == now + Interval(cronExpression) > now
  {
    Task(id, projectId, cronExpression, true, None, now + Interval(cronExpression), watchForChanges)
  }

  /** The condition `checkScheduledTasks` runs a task on. */
  predicate Due(t: Task, now: int) {
    t.isActive && t.nextRun <= now
  }

  /**
   * A task after one tick: a task that is not due is left alone; a run that
   * throws changes nothing; otherwise `nextRun` moves to an interval after
   * the run returned, and `lastRun` is set only when the project was found.
   */
  function AfterTick(t: Task, now: int, exec: Task -> Execution): (u: Task)
    ensures u.id == t.id && u.projectId == t.projectId && u.cronExpression == t.cronExpression
    ensures u.isActive == t.isActive && u.watchForChanges == t.watchForChanges
  {
    if !Due(t, now) then t
    else
      var e := exec(t);
      if e.Threw? then t
      else if e.ProjectMissing? then t.(nextRun := e.finishedAt + Interval(t.cronExpression))
      else t.(lastRun := Some(e.finishedAt), nextRun := e.finishedAt + Interval(t.cronExpression))
  }

  /**
   * What a tick does to one task: only a due task changes; a run that throws
   * leaves it due; a run that returns, no earlier than the tick, leaves it
   * not due at the tick's time, with `lastRun` the time it returned exactly
   * when the project was found.
   */
  lemma AfterTickCases(t: Task, now: int, exec: Task -> Execution)
    ensures !Due(t, now) ==> AfterTick(t, now, exec) == t
    ensures Due(t, now) && exec(t).Threw? ==> AfterTick(t, now, exec) == t && Due(AfterTick(t, now, exec), now)
    ensures Due(t, now) && !exec(t).Threw? && exec(t).finishedAt >= now ==>
      var u := AfterTick(t, now, exec);
      && !Due(u, now)
      && u.nextRun == exec(t).finishedAt + Interval(t.cronExpression)
      && u.lastRun == (if exec(t).Ran? then Some(exec(t).finishedAt) else t.lastRun)
  {
  }

  /** The keys in `keys` whose tasks are due, in the same order. */
  function DueIds(keys: seq<string>, tasks: map<string, Task>, now: int): (r: seq<string>)
    requires forall k :: k in keys ==> k in tasks
    ensures forall k :: k in r <==> k in keys && Due(tasks[k], now)
    decreases |keys|
  {
    if keys == [] then []
    else
      var last := keys[|keys| - 1];
      DueIds(keys[..|keys| - 1], tasks, now) + (if Due(tasks[last], now) then [last] else [])
  }

  /** The members of `ts` for project `projectId`, in the same order. */
  function ForProject(ts: seq<Task>, projectId: int): (r: seq<Task>)
    ensures forall t :: t in r <==> t in ts && t.projectId == projectId
    ensures |r| <= |ts|
  {
    if ts == [] then []
    else if ts[0].projectId == projectId then [ts[0]] + ForProject(ts[1..], projectId)
    else ForProject(ts[1..], projectId)
  }

  /** The project filter keeps insertion order and repeats: it filters task by task. */
  lemma {:induction false} ForProjectAppend(a: seq<Task>, b: seq<Task>, projectId: int)
    ensures ForProject(a + b, projectId) == ForProject(a, projectId) + ForProject(b, projectId)
    decreases |a|
  {
    if a == [] {
      assert a + b == b;
    } else {
      var t := a[1..];
      var head := if a[0].projectId == projectId then [a[0]] else [];
      assert (a + b)[0] == a[0] && (a + b)[1..] == t + b;
      ForProjectAppend(t, b, projectId);
      FilterStep(ForProject(a + b, projectId), ForProject(a, projectId), head, ForProject(t + b, projectId),
                 ForProject(t, projectId), ForProject(b, projectId));
    }
  }

  /** A single task is kept exactly when it belongs to the project. */
  lemma ForProjectOne(t: Task, projectId: int)
    ensures ForProject([t], projectId) == if t.projectId == projectId then [t] else []
  {
    assert [t][1..] == [];
  }

  /** `order` lists every key of `tasks` once, and every task is stored under its own id. */
  predicate Table(order: seq<string>, tasks: map<string, Task>) {
    Keyed(order, tasks) && forall k :: k in tasks ==> tasks[k].id == k
  }

  class Scheduler {
    var tasks: map<string, Task>
    var order: seq<string>

    /** `order` lists every key once, and every task is stored under its own id. */
    predicate Valid()
      reads this
    {
      Table(order, tasks)
    }

    /** `new SchedulerService()`: no tasks. The minute timer is not modelled. */
    constructor ()
      ensures Valid() && tasks == map[] && order == []
    {
      tasks := map[];
      order := [];
    }

    /**
     * `scheduleTask(projectId, cronExpression, watchForChanges)` at time
     * `now`: stores the new task under its id, replacing a task with the same
     * id in place, and returns the id.
     */
    method ScheduleTask(projectId: int, cronExpression: string, watchForChanges: bool, now: int) returns (id: string)
      requires Valid()
      modifies this
      ensures Valid()
      ensures id == TaskKey(projectId, now)
      ensures tasks == old(tasks)[id := NewTask(id, projectId, cronExpression, watchForChanges, now)]
      ensures order == Inserted(old(order), old(tasks), id)
    {
      id := TaskKey(projectId, now);
      var task := NewTask(id, projectId, cronExpression, watchForChanges, now);
      InsertedKeyed(order, tasks, id, task);
      order := Inserted(order, tasks, id);
      tasks := tasks[id := task];
    }

    /**
     * `cancelTask(taskId)`: true, with that entry removed, when it is stored;
     * false otherwise. No other task changes.
     */
    method CancelTask(taskId: string) returns (found: bool)
      requires Valid()
      modifies this
      ensures Valid()
      ensures found <==> taskId in old(tasks)
      ensures taskId !in tasks
      ensures tasks == old(tasks) - {taskId}
      ensures order == Without(old(order), taskId)
    {
      found := taskId in tasks;
      if found {
        DeletedKeyed(order, tasks, taskId);
        tasks := tasks - {taskId};
        order := Without(order, taskId);
      } else {
        DeletedAbsent(order, tasks, taskId);
      }
    }

    /** `getTask(taskId)`. */
    function GetTask(taskId: string): (t: Option<Task>)
      reads this
      requires Valid()
      ensures t.Some? <==> taskId in tasks
      ensures t.Some? ==> t.value.id == taskId && t.value == tasks[taskId]
    {
      if taskId in tasks then Some(tasks[taskId]) else None
    }

    /** `getAllTasks()`: the stored tasks, each once, in insertion order. */
    function AllTasks(): (ts: seq<Task>)
      reads this
      requires Valid()
      ensures |ts| == |order|
      ensures forall i :: 0 <= i < |ts| ==> ts[i] == tasks[order[i]]
      ensures forall i, j :: 0 <= i < j < |ts| ==> ts[i].id != ts[j].id
      ensures forall t :: t in ts <==> t.id in tasks && tasks[t.id] == t
    {
      ValuesOfKeyed(order, tasks, (t: Task) => t.id);
      Values(order, tasks)
    }

    /** `getTasksForProject(projectId)`: exactly the stored tasks for that project. */
    function TasksForProject(projectId: int): (ts: seq<Task>)
      reads this
      requires Valid()
      ensures forall t :: t in ts <==> t.id in tasks && tasks[t.id] == t && t.projectId == projectId
      ensures ts == ForProject(AllTasks(), projectId)
    {
      ForProject(AllTasks(), projectId)
    }

    /**
     * `checkScheduledTasks()` at time `now`: runs exactly the due tasks,
     * in insertion order (their ids are `ran`), and updates each task as
     * `AfterTick` says. The set of tasks and their order do not change.
     */
    method CheckScheduledTasks(now: int, exec: Task -> Execution) returns (ran: seq<string>)
      requires Valid()
      modifies this
      ensures Valid()
      ensures order == old(order)
      ensures tasks == Ticked(old(tasks), order, now, exec)
      ensures ran == DueIds(old(order), old(tasks), now)
    {
      ghost var start := tasks;
      ran := [];
      var i := 0;
      while i < |order|
        invariant 0 <= i <= |order| && order == old(order)
        invariant tasks == Ticked(start, order[..i], now, exec)
        invariant ran == DueIds(order[..i], start, now)
      {
        var id := order[i];
        TickStep(start, order, i, now, exec);
        var task := tasks[id];
        if task.isActive && task.nextRun <= now {
          ran := ran + [id];
          var outcome := exec(task);
          if !outcome.Threw? {
            tasks := tasks[id := AfterTick(task, now, exec)];
          } else {
            UpdateSame(tasks, id);
          }
        } else {
          UpdateSame(tasks, id);
        }
        i := i + 1;
      }
      assert order[..i] == order;
      TickedTable(start, order, now, exec);
    }
  }

  /** The table `start` once a tick has visited the keys in `done`. */
  ghost function Ticked(start: map<string, Task>, done: seq<string>, now: int, exec: Task -> Execution): map<string, Task> {
    map k | k in start :: if k in done then AfterTick(start[k], now, exec) else start[k]
  }


  /** One more step of the tick: the next key's task is still as it was, and only it may change. */
  lemma TickStep(start: map<string, Task>, order: seq<string>, i: nat, now: int, exec: Task -> Execution)
    requires Distinct(order) && i < |order| && forall k :: k in order ==> k in start
    ensures Ticked(start, order[..i], now, exec)[order[i]] == start[order[i]]
    ensures Ticked(start, order[..i + 1], now, exec)
      == Ticked(start, order[..i], now, exec)[order[i] := AfterTick(start[order[i]], now, exec)]
    ensures DueIds(order[..i + 1], start, now)
      == DueIds(order[..i], start, now) + (if Due(start[order[i]], now) then [order[i]] else [])
  {
    var id, done := order[i], order[..i];
    assert id !in done;
    assert order[..i + 1] == done + [id];
    assert (done + [id])[..i] == done;
    var before, after := Ticked(start, done, now, exec), Ticked(start, done + [id], now, exec);
    forall k | k in start ensures after[k] == before[id := AfterTick(start[id], now, exec)][k] {
      assert k in done + [id] <==> k in done || k == id;
    }
  }

  /**
   * A whole tick: the keys stay the same, every task has had its tick, and
   * the table stays well formed.
   */
  lemma TickedTable(start: map<string, Task>, order: seq<string>, now: int, exec: Task -> Execution)
    requires Table(order, start)
    ensures Ticked(start, order, now, exec).Keys == start.Keys
    ensures forall k :: k in start ==> Ticked(start, order, now, exec)[k] == AfterTick(start[k], now, exec)
    ensures Table(order, Ticked(start, order, now, exec))
  {
  }

  /** Storing a key's own task again changes nothing. */
  lemma UpdateSame(tasks: map<string, Task>, id: string)
    requires id in tasks
    ensures tasks[id := tasks[id]] == tasks
  {
  }
}
