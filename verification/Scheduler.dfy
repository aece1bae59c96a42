/**
  `ASIOScheduler`: tasks with fixed periods in a queue ordered by their next
  deadline, run one at a time by a timer.
 */
module Scheduler {
  type Id = nat

  /** Times and periods are in milliseconds; `first` is the deadline a task was added with. */
  datatype Task = Task(period: nat, nextpoll: int, first: int)

  /** One execution of a task, with the deadline it was executed for. */
  datatype Run = Run(id: Id, deadline: int)

  // ----- Runs so far -----------------------------------------------------------------------

  /** How often a task has run. */
  function Count(log: seq<Run>, id: Id): nat {
    if log == [] then 0 else Count(log[..|log| - 1], id) + if log[|log| - 1].id == id then 1 else 0
  }

  lemma CountNext(log: seq<Run>, n: nat, id: Id)
    requires n < |log|
    ensures Count(log[..n + 1], id) == Count(log[..n], id) + if log[n].id == id then 1 else 0
  {
    assert log[..n + 1][..n] == log[..n];
  }

  lemma CountSnoc(log: seq<Run>, r: Run, id: Id)
    ensures Count(log + [r], id) == Count(log, id) + if r.id == id then 1 else 0
  {
    assert (log + [r])[..|log|] == log;
  }

  lemma {:induction false} CountMono(log: seq<Run>, a: nat, b: nat, id: Id)
    requires a <= b <= |log|
    ensures Count(log[..a], id) <= Count(log[..b], id)
    decreases b - a
  {
    if a < b {
      CountMono(log, a, b - 1, id);
      CountNext(log, b - 1, id);
    }
  }

  /** The run number `m` of a task, counted from 0. */
  lemma {:induction false} NthRun(log: seq<Run>, n: nat, id: Id, m: nat) returns (x: nat)
    requires n <= |log| && m < Count(log[..n], id)
    ensures x < n && log[x].id == id && Count(log[..x], id) == m
    decreases n
  {
    CountNext(log, n - 1, id);
    if m < Count(log[..n - 1], id) {
      x := NthRun(log, n - 1, id, m);
    } else {
      x := n - 1;
    }
  }

  /** The deadlines of every task are its first one plus whole periods. */
  ghost predicate Periodic(tasks: map<Id, Task>, log: seq<Run>) {
    && (forall i :: i in tasks ==> tasks[i].nextpoll == tasks[i].first + Count(log, i) * tasks[i].period)
    && (forall x :: 0 <= x < |log| ==> OnPeriod(tasks, log, x))
  }

  ghost predicate OnPeriod(tasks: map<Id, Task>, log: seq<Run>, x: nat)
    requires x < |log|
  {
    var i := log[x].id;
    i in tasks && log[x].deadline == tasks[i].first + Count(log[..x], i) * tasks[i].period
  }

  /** Deadlines never decrease: neither along the runs so far nor from them to what is to come. */
  ghost predicate InLine(tasks: map<Id, Task>, log: seq<Run>) {
    && (forall x, y :: 0 <= x <= y < |log| ==> log[x].deadline <= log[y].deadline)
    && (forall x, i :: 0 <= x < |log| && i in tasks ==> log[x].deadline <= tasks[i].nextpoll)
  }

  /** What has run was due. */
  ghost predicate Due(log: seq<Run>, clock: int) {
    forall x :: 0 <= x < |log| ==> log[x].deadline <= clock
  }

  /** A deadline that does not lie before that of the last run. */
  predicate Follows(log: seq<Run>, deadline: int) {
    log == [] || log[|log| - 1].deadline <= deadline
  }

  lemma AddPeriodic(tasks: map<Id, Task>, log: seq<Run>, id: Id, task: Task)
    requires Periodic(tasks, log) && id !in tasks && task.nextpoll == task.first
    ensures Periodic(tasks[id := task], log)
  {
    var t := tasks[id := task];
    forall x | 0 <= x < |log| ensures log[x].id in tasks && OnPeriod(t, log, x) {
      assert OnPeriod(tasks, log, x);
    }
    NeverRan(tasks, log, id);
  }

  /** Adding a task keeps deadlines in line exactly when the first one does not lie before the
      deadline of the last run. */
  lemma AddInLine(tasks: map<Id, Task>, log: seq<Run>, id: Id, task: Task)
    requires id !in tasks
    ensures InLine(tasks[id := task], log) <==> InLine(tasks, log) && Follows(log, task.nextpoll)
  {
    var t := tasks[id := task];
    assert t[id] == task && forall i :: i in tasks ==> t[i] == tasks[i];
  }

  /** That is so for every period as long as all runs were due. */
  lemma AddDue(log: seq<Run>, clock: int, now: int, period: nat)
    requires Due(log, clock) && clock <= now
    ensures Due(log, now) && Follows(log, now + period)
  {
  }

  /** Otherwise the new task is the next to run, and it runs for a smaller deadline than the task
      before it. */
  lemma Overtakes(tasks: map<Id, Task>, log: seq<Run>, id: Id, task: Task)
    requires InLine(tasks, log) && id !in tasks && !Follows(log, task.nextpoll)
    ensures IsTop(tasks[id := task], id) && forall i :: i in tasks ==> !IsTop(tasks[id := task], i)
    ensures var more := log + [Run(id, task.nextpoll)];
            more[|log|].deadline < more[|log| - 1].deadline
  {
    var t, last := tasks[id := task], |log| - 1;
    forall i | i in tasks ensures task.nextpoll < t[i].nextpoll && !IsTop(t, i) {
      assert log[last].deadline <= tasks[i].nextpoll;
      assert id in t && t[id] == task;
    }
  }

  lemma {:induction false} NeverRan(tasks: map<Id, Task>, log: seq<Run>, id: Id)
    requires id !in tasks && forall x :: 0 <= x < |log| ==> log[x].id in tasks
    ensures Count(log, id) == 0
  {
    if log != [] { NeverRan(tasks, log[..|log| - 1], id); }
  }

  predicate IsTop(tasks: map<Id, Task>, id: Id) {
    id in tasks && forall i :: i in tasks ==> tasks[id].nextpoll <= tasks[i].nextpoll
  }

  function Moved(t: Task): Task {
    t.(nextpoll := t.nextpoll + t.period)
  }

  /** Executing a task and moving it on by one period, early or not. */
  lemma FirePeriodic(tasks: map<Id, Task>, log: seq<Run>, id: Id)
    requires Periodic(tasks, log) && id in tasks
    ensures Periodic(tasks[id := Moved(tasks[id])], log + [Run(id, tasks[id].nextpoll)])
  {
    var t := tasks[id := Moved(tasks[id])];
    var r := Run(id, tasks[id].nextpoll);
    var l := log + [r];
    forall i | i in t ensures t[i].nextpoll == t[i].first + Count(l, i) * t[i].period {
      CountSnoc(log, r, i);
      OneMore(Count(log, i), t[i].period);
    }
    forall x | 0 <= x < |l| ensures OnPeriod(t, l, x) {
      if x < |log| {
        assert OnPeriod(tasks, log, x);
        assert l[..x] == log[..x];
      } else {
        assert l[..x] == log;
      }
    }
  }

  /** Executing the earliest task, early or not, keeps deadlines in line, and never mends them. */
  lemma FireInLine(tasks: map<Id, Task>, log: seq<Run>, id: Id)
    requires IsTop(tasks, id)
    ensures InLine(tasks, log) <==> InLine(tasks[id := Moved(tasks[id])], log + [Run(id, tasks[id].nextpoll)])
  {
    var t, more := tasks[id := Moved(tasks[id])], log + [Run(id, tasks[id].nextpoll)];
    assert forall x :: 0 <= x < |log| ==> more[x] == log[x];
    assert more[|log|].deadline == tasks[id].nextpoll;
    if InLine(t, more) {
      forall x, i | 0 <= x < |log| && i in tasks ensures log[x].deadline <= tasks[i].nextpoll {
        assert more[x].deadline <= more[|log|].deadline;
      }
      forall x, y | 0 <= x <= y < |log| ensures log[x].deadline <= log[y].deadline {
        assert more[x].deadline <= more[y].deadline;
      }
    }
  }

  // ----- Whole runs ---------------------------------------------------------------------------

  /** What happens to the tables: a task is added at time `now`, or one is executed. */
  datatype Step = Added(id: Id, period: nat, now: int) | Executed(id: Id)

  datatype Tables = Tables(tasks: map<Id, Task>, log: seq<Run>)

  function NewTask(period: nat, now: int): Task {
    Task(period, now + period, now + period)
  }

  predicate Can(t: Tables, s: Step) {
    match s
    case Added(id, _, _) => id !in t.tasks
    case Executed(id) => IsTop(t.tasks, id)
  }

  function Do(t: Tables, s: Step): Tables
    requires Can(t, s)
  {
    match s
    case Added(id, period, now) => t.(tasks := t.tasks[id := NewTask(period, now)])
    case Executed(id) => Tables(t.tasks[id := Moved(t.tasks[id])], t.log + [Run(id, t.tasks[id].nextpoll)])
  }

  ghost predicate Leads(t: Tables, steps: seq<Step>, u: Tables)
    decreases |steps|
  {
    if steps == [] then t == u else Can(t, steps[0]) && Leads(Do(t, steps[0]), steps[1..], u)
  }

  /** Every task in the run is added with a deadline that does not lie before that of the last
      run at that time. */
  ghost predicate AddedInTime(t: Tables, steps: seq<Step>)
    decreases |steps|
  {
    steps != [] && Can(t, steps[0]) ==>
      && (steps[0].Added? ==> Follows(t.log, steps[0].now + steps[0].period))
      && AddedInTime(Do(t, steps[0]), steps[1..])
  }

  /** In every run, whenever its handlers run, deadlines stay in line exactly when every task is
      added in time. */
  lemma {:induction false} RunInLine(t: Tables, steps: seq<Step>, u: Tables)
    requires Leads(t, steps, u)
    ensures InLine(u.tasks, u.log) <==> InLine(t.tasks, t.log) && AddedInTime(t, steps)
    decreases |steps|
  {
    hide InLine, Follows;
    if steps != [] {
      var s := steps[0];
      if s.Added? {
        AddInLine(t.tasks, t.log, s.id, NewTask(s.period, s.now));
      } else {
        FireInLine(t.tasks, t.log, s.id);
      }
      RunInLine(Do(t, s), steps[1..], u);
    }
  }

  /** In every run all deadlines are on their periods. */
  lemma {:induction false} RunPeriodic(t: Tables, steps: seq<Step>, u: Tables)
    requires Leads(t, steps, u) && Periodic(t.tasks, t.log)
    ensures Periodic(u.tasks, u.log)
    decreases |steps|
  {
    hide Periodic;
    if steps != [] {
      var s := steps[0];
      if s.Added? {
        AddPeriodic(t.tasks, t.log, s.id, NewTask(s.period, s.now));
      } else {
        FirePeriodic(t.tasks, t.log, s.id);
      }
      RunPeriodic(Do(t, s), steps[1..], u);
    }
  }

  lemma OneMore(c: nat, p: nat)
    ensures (c + 1) * p == c * p + p
  {
  }

  // ----- What follows ----------------------------------------------------------------------------

  /** The k-th deadline of a task is its first one plus k periods. */
  lemma KthDeadline(tasks: map<Id, Task>, log: seq<Run>, x: nat)
    requires Periodic(tasks, log) && x < |log|
    ensures log[x].id in tasks
    ensures log[x].deadline == tasks[log[x].id].first + Count(log[..x], log[x].id) * tasks[log[x].id].period
  {
    assert OnPeriod(tasks, log, x);
  }

  /** Between two consecutive runs of one task, at positions `a` and `b`, another task with
      a positive period runs at most floor(p_i / p_j) + 1 times. */
  lemma Fairness(tasks: map<Id, Task>, log: seq<Run>, a: nat, b: nat, j: Id)
    requires Periodic(tasks, log) && InLine(tasks, log) && a < b < |log| && j in tasks && tasks[j].period > 0
    requires log[a].id == log[b].id && Count(log[..b], log[a].id) == Count(log[..a], log[a].id) + 1
    ensures log[a].id in tasks
    ensures Count(log[..b], j) - Count(log[..a], j) <= tasks[log[a].id].period / tasks[j].period + 1
  {
    hide *;
    var i := log[a].id;
    RunAt(tasks, log, a);
    RunAt(tasks, log, b);
    var ca, cb := Count(log[..a], j), Count(log[..b], j);
    if cb > ca {
      var x := NthRun(log, b, j, ca);
      var y := NthRun(log, b, j, cb - 1);
      if x < a {
        CountNext(log, x, j);
        CountMono(log, x + 1, a, j);
      }
      RunAt(tasks, log, x);
      RunAt(tasks, log, y);
      InOrder(tasks, log, a, x);
      InOrder(tasks, log, y, b);
      Fits(tasks[j], ca, cb - 1, tasks[i], Count(log[..a], i));
    }
  }

  /** The same for every run from start-up in which tasks are added in time. */
  lemma RunFair(steps: seq<Step>, u: Tables, a: nat, b: nat, j: Id)
    requires Leads(Tables(map[], []), steps, u) && AddedInTime(Tables(map[], []), steps)
    requires a < b < |u.log| && j in u.tasks && u.tasks[j].period > 0
    requires u.log[a].id == u.log[b].id && Count(u.log[..b], u.log[a].id) == Count(u.log[..a], u.log[a].id) + 1
    ensures u.log[a].id in u.tasks
    ensures Count(u.log[..b], j) - Count(u.log[..a], j) <= u.tasks[u.log[a].id].period / u.tasks[j].period + 1
  {
    hide Leads, AddedInTime, Count;
    var t := Tables(map[], []);
    RunPeriodic(t, steps, u);
    RunInLine(t, steps, u);
    Fairness(u.tasks, u.log, a, b, j);
  }

  /** Deadline number `k` of a task. */
  function Deadline(task: Task, k: nat): int {
    task.first + k * task.period
  }

  lemma RunAt(tasks: map<Id, Task>, log: seq<Run>, x: nat)
    requires Periodic(tasks, log) && x < |log|
    ensures log[x].id in tasks && log[x].deadline == Deadline(tasks[log[x].id], Count(log[..x], log[x].id))
  {
    hide Periodic, Count;
    KthDeadline(tasks, log, x);
  }

  /** Deadlines never decrease. */
  lemma InOrder(tasks: map<Id, Task>, log: seq<Run>, x: nat, y: nat)
    requires InLine(tasks, log) && x <= y < |log|
    ensures log[x].deadline <= log[y].deadline
  {
  }

  /** Deadlines number m to n of one task, between two consecutive ones of another. */
  lemma Fits(s: Task, m: nat, n: nat, t: Task, k: nat)
    requires m <= n && s.period > 0 && Deadline(t, k) <= Deadline(s, m) && Deadline(s, n) <= Deadline(t, k + 1)
    ensures n - m <= t.period / s.period
  {
    OneMore(k, t.period);
    Spread(m, n, s.period);
    AtMost(n - m, s.period, t.period);
  }

  lemma Spread(m: nat, n: nat, q: nat)
    requires m <= n
    ensures n * q - m * q == (n - m) * q
  {
  }

  lemma AtMost(c: nat, q: nat, p: nat)
    requires q > 0 && c * q <= p
    ensures c <= p / q
  {
    if c > p / q {
      assert c * q >= (p / q + 1) * q by { Larger(c, p / q + 1, q); }
    }
  }

  lemma Larger(m: nat, n: nat, q: nat)
    requires m >= n
    ensures m * q >= n * q
  {
    Spread(n, m, q);
  }

  // ----- The scheduler ---------------------------------------------------------------------------

  datatype Timer = Off | At(expiry: int)

  class ASIOScheduler {
    var running: bool
    var schedule: map<Id, Task>
    var timer: Timer
    ghost var log: seq<Run>
    ghost var clock: int

    /** While it runs, the timer is set to the earliest deadline. */
    ghost predicate Valid()
      reads this
    {
      && Periodic(schedule, log)
      && (timer.At? ==> exists id :: IsTop(schedule, id) && schedule[id].nextpoll == timer.expiry)
      && (running && schedule != map[] <==> timer.At?)
    }

    /** No task has run before it was due. */
    ghost predicate Punctual()
      reads this
    {
      Due(log, clock)
    }

    constructor (now: int)
      ensures Valid() && Punctual() && InLine(schedule, log) && schedule == map[] && log == [] && clock == now
      ensures !running
    {
      running, schedule, timer, log, clock := false, map[], Off, [], now;
    }

    /** `Schedule.top()`: some task with the earliest deadline. */
    method Top() returns (id: Id)
      requires schedule != map[]
      ensures IsTop(schedule, id)
    {
      id :| id in schedule;
      var todo := schedule.Keys - {id};
      while todo != {}
        invariant id in schedule && todo <= schedule.Keys
        invariant forall i :: i in schedule && i !in todo ==> schedule[id].nextpoll <= schedule[i].nextpoll
      {
        var i :| i in todo;
        todo := todo - {i};
        if schedule[i].nextpoll < schedule[id].nextpoll {
          id := i;
        }
      }
    }

    method Start()
      requires Periodic(schedule, log)
      modifies this`running, this`timer
      ensures schedule == map[] ==> running == old(running) && timer == old(timer)
      ensures schedule != map[] ==> running && Valid()
    {
      if schedule == map[] {
        return;
      }
      running := true;
      var task := Top();
      timer := At(schedule[task].nextpoll);
    }

    /** `Add`, at time `now`, of a task that gets the number `id`. */
    method Add(id: Id, period: nat, now: int)
      requires Valid() && id !in schedule && clock <= now
      modifies this
      ensures Valid() && (old(Punctual()) ==> Punctual() && Follows(log, now + period))
      ensures InLine(schedule, log) <==> InLine(old(schedule), log) && Follows(log, now + period)
      ensures log == old(log) && running == old(running) && clock == now
      ensures schedule == old(schedule)[id := NewTask(period, now)]
    {
      hide Periodic, InLine, Due, Follows;
      var task := NewTask(period, now);
      AddPeriodic(schedule, log, id, task);
      AddInLine(schedule, log, id, task);
      if Due(log, clock) { AddDue(log, clock, now, period); }
      schedule := schedule[id := task];
      clock := now;
      assert id in schedule;
      if running {
        Start();
      }
    }

    method Stop()
      requires Valid()
      modifies this`running, this`timer
      ensures Valid() && !running
    {
      hide Periodic;
      running := false;
      timer := Off;
    }

    /** The timer is due only when a deadline is. */
    lemma TimerDue(now: int)
      requires Valid() && timer.At? && timer.expiry <= now
      ensures exists id :: id in schedule && schedule[id].nextpoll <= now
    {
      hide Periodic;
      var id :| IsTop(schedule, id) && schedule[id].nextpoll == timer.expiry;
    }

    /** The handler of the timer.  It runs a task with the earliest deadline, due or not.  A
        handler that is already queued when `Stop` is called, or when `Start` sets the timer
        again, still runs. */
    method DoScheduledTask(now: int) returns (id: Id)
      requires Valid() && clock <= now && schedule != map[]
      modifies this
      ensures Valid() && running == old(running) && clock == now
      ensures IsTop(old(schedule), id) && log == old(log) + [Run(id, old(schedule)[id].nextpoll)]
      ensures schedule == old(schedule)[id := Moved(old(schedule)[id])]
      ensures InLine(schedule, log) <==> InLine(old(schedule), old(log))
      ensures Punctual() <==> Due(old(log), now) && old(schedule)[id].nextpoll <= now
    {
      hide Periodic, InLine;
      id := Top();
      FirePeriodic(schedule, log, id);
      FireInLine(schedule, log, id);
      DueSnoc(log, Run(id, schedule[id].nextpoll), now);
      hide Due;
      log := log + [Run(id, schedule[id].nextpoll)];
      schedule := schedule[id := Moved(schedule[id])];
      clock := now;
      assert id in schedule;
      if running {
        Start();
      }
    }
  }

  lemma DueSnoc(log: seq<Run>, r: Run, now: int)
    ensures Due(log + [r], now) <==> Due(log, now) && r.deadline <= now
  {
    var more := log + [r];
    assert more[|log|] == r && forall x :: 0 <= x < |log| ==> more[x] == log[x];
  }

  lemma OnlyTop(tasks: map<Id, Task>)
    requires tasks == map[0 := Task(10, 20, 10), 1 := Task(1, 1, 1)]
    ensures forall i :: i in tasks && IsTop(tasks, i) ==> i == 1
  {
    assert 1 in tasks && tasks[1].nextpoll == 1;
  }

  /** A run of the scheduler that gets out of line: a task due at 10 is executed at 0, and one
      added then with a period of 1 is executed for the deadline 1. */
  method EarlyRun() returns (s: ASIOScheduler)
    ensures s.log == [Run(0, 10), Run(1, 1)] && s.Valid() && !InLine(s.schedule, s.log)
  {
    hide Periodic, InLine;
    s := new ASIOScheduler(0);
    s.Add(0, 10, 0);
    s.Start();
    var first := s.DoScheduledTask(0);
    assert s.log == [Run(0, 10)];
    assert s.schedule == map[0 := Task(10, 20, 10)];
    s.Add(1, 1, 0);
    assert s.schedule == map[0 := Task(10, 20, 10), 1 := Task(1, 1, 1)];
    OnlyTop(s.schedule);
    var second := s.DoScheduledTask(0);
    assert second == 1;
  }
}
