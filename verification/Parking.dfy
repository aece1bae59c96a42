/**
  Parking the worker threads for a reload, as a state machine over the atomic
  steps of the threads that run the asio service and of the thread that reloads.
  `shutting_down` stays false throughout.
 */
module Parking {
  /** A posted handler; a `Start` handler enables an object and counts down
      `starting_element_count` when it is done, a `Flush` handler is the one a reload posts
      and waits for before it parks the threads. */
  datatype Task = Other | Start | Flush

  /** Where a thread is: between two handlers, in a handler, in `ParkThread` before
      reading the flag, between posting the next parking task and counting itself, in the
      park loop, or past the loop but not yet counted down. */
  datatype Place = Free | Running(task: Task) | Checking | Posted | InLoop | Leaving

  /** `waiting` counts the calls of `ParkThread` below on the stack that wait for startup
      to finish, each of which may run further handlers. */
  datatype Thread = Thread(place: Place, waiting: nat)

  /** The reloading thread: outside a reload, waiting for its `Flush` handler, about to call
      `ParkThreads`, after setting `parking`, waiting for the count, and between the return
      of `ParkThreads` and clearing `parking`. */
  datatype Control = Idle | Flushing | Flushed | Requested | Awaiting | AllParked

  datatype State = State(threads: seq<Thread>, parkTasks: nat, startTasks: nat, flushTasks: nat, otherTasks: nat,
                         starting: nat, parking: bool, parked: nat, control: Control)

  datatype Step =
    | Take(t: nat, task: Task) | Finish(t: nat, posts: nat)
    | TakePark(t: nat) | Check(t: nat) | PostNext(t: nat) | CountUp(t: nat) | Look(t: nat) | CountDown(t: nat)
    | PostFlush | Request | PostFirst | SeeAll | Unpark | Post(task: Task) | DropStale

  // ----- Steps -----------------------------------------------------------------------------

  function Move(q: State, t: nat, th: Thread): State
    requires t < |q.threads|
  {
    q.(threads := q.threads[t := th])
  }

  predicate At(q: State, t: nat, place: Place) {
    t < |q.threads| && q.threads[t].place == place
  }

  function Queued(q: State, task: Task): nat {
    match task
    case Other => q.otherTasks
    case Start => q.startTasks
    case Flush => q.flushTasks
  }

  predicate Can(q: State, s: Step) {
    match s
    case Take(t, task) => At(q, t, Free) && Queued(q, task) > 0
    case Finish(t, _) => t < |q.threads| && q.threads[t].place.Running?
      && (q.threads[t].place.task == Start ==> q.starting > 0)
    case TakePark(t) => At(q, t, Free) && q.parkTasks > 0
    case Check(t) => At(q, t, Checking)
    case PostNext(t) => At(q, t, Free) && q.threads[t].waiting > 0 && q.starting == 0
    case CountUp(t) => At(q, t, Posted)
    case Look(t) => At(q, t, InLoop)
    case CountDown(t) => At(q, t, Leaving) && q.parked > 0
    case PostFlush => q.control == Idle
    case Request => q.control == Flushed
    case PostFirst => q.control == Requested
    case SeeAll => q.control == Awaiting && q.parked >= |q.threads|
    case Unpark => q.control == AllParked
    case Post(task) => task != Flush
    case DropStale => q.control == Idle && q.parkTasks > 0
  }

  function Do(q: State, s: Step): State
    requires Can(q, s)
  {
    match s
    case Take(t, task) =>
      var r := Move(q, t, q.threads[t].(place := Running(task)));
      (match task
       case Other => r.(otherTasks := q.otherTasks - 1)
       case Start => r.(startTasks := q.startTasks - 1)
       case Flush => r.(flushTasks := q.flushTasks - 1))
    case Finish(t, posts) =>
      var r := Move(q, t, q.threads[t].(place := Free)).(otherTasks := q.otherTasks + posts);
      (match q.threads[t].place.task
       case Other => r
       case Start => r.(starting := q.starting - 1)
       case Flush => if q.control == Flushing then r.(control := Flushed) else r)
    case TakePark(t) => Move(q, t, q.threads[t].(place := Checking)).(parkTasks := q.parkTasks - 1)
    case Check(t) => Move(q, t, Thread(Free, if q.parking then q.threads[t].waiting + 1 else q.threads[t].waiting))
    case PostNext(t) => Move(q, t, Thread(Posted, q.threads[t].waiting - 1)).(parkTasks := q.parkTasks + 1)
    case CountUp(t) => Move(q, t, q.threads[t].(place := InLoop)).(parked := q.parked + 1)
    case Look(t) => if q.parking then q else Move(q, t, q.threads[t].(place := Leaving))
    case CountDown(t) => Move(q, t, q.threads[t].(place := Free)).(parked := q.parked - 1)
    case PostFlush => q.(flushTasks := q.flushTasks + 1, control := Flushing)
    case Request => q.(parking := true, control := Requested)
    case PostFirst => q.(parkTasks := q.parkTasks + 1, control := Awaiting)
    case SeeAll => q.(control := AllParked)
    case Unpark => q.(parking := false, control := Idle)
    case Post(task) => if task == Start then q.(startTasks := q.startTasks + 1, starting := q.starting + 1)
      else q.(otherTasks := q.otherTasks + 1)
    case DropStale => q.(parkTasks := q.parkTasks - 1)
  }

  /** `steps` leads from `q` to `r`. */
  ghost predicate Leads(q: State, steps: seq<Step>, r: State)
    decreases |steps|
  {
    if steps == [] then q == r
    else Can(q, steps[0]) && Leads(Do(q, steps[0]), steps[1..], r)
  }

  /** The service has started and nothing runs yet. */
  predicate Initial(q: State) {
    && (forall t :: 0 <= t < |q.threads| ==> q.threads[t] == Thread(Free, 0))
    && q.parkTasks == 0 && q.flushTasks == 0 && q.starting == q.startTasks && !q.parking && q.parked == 0
    && q.control == Idle
  }

  // ----- What every run keeps ---------------------------------------------------------------

  /** Threads between counting themselves up and down. */
  function Counted(threads: seq<Thread>): nat {
    if threads == [] then 0
    else Counted(threads[1..]) + if threads[0].place in {InLoop, Leaving} then 1 else 0
  }

  /** Threads in the middle of a `Start` handler. */
  function Starting(threads: seq<Thread>): nat {
    if threads == [] then 0
    else Starting(threads[1..]) + if threads[0].place == Running(Start) then 1 else 0
  }

  lemma {:induction false} MoveCounts(threads: seq<Thread>, t: nat, th: Thread)
    requires t < |threads|
    ensures Counted(threads[t := th]) + (if threads[t].place in {InLoop, Leaving} then 1 else 0) ==
            Counted(threads) + if th.place in {InLoop, Leaving} then 1 else 0
    ensures Starting(threads[t := th]) + (if threads[t].place == Running(Start) then 1 else 0) ==
            Starting(threads) + if th.place == Running(Start) then 1 else 0
  {
    if t == 0 {
      assert threads[t := th][1..] == threads[1..];
    } else {
      assert threads[t := th][1..] == threads[1..][t - 1 := th];
      MoveCounts(threads[1..], t - 1, th);
    }
  }

  /** The counters are right. */
  ghost predicate Counters(q: State) {
    && q.parked == Counted(q.threads)
    && q.starting == q.startTasks + Starting(q.threads)
    && (q.parking <==> q.control in {Requested, Awaiting, AllParked})
  }

  lemma InitialCounters(q: State)
    requires Initial(q)
    ensures Counters(q)
  {
    NoneCounted(q.threads);
  }

  lemma {:induction false} NoneCounted(threads: seq<Thread>)
    requires forall t :: 0 <= t < |threads| ==> threads[t] == Thread(Free, 0)
    ensures Counted(threads) == 0 && Starting(threads) == 0
  {
    if threads != [] { NoneCounted(threads[1..]); }
  }

  lemma StepCounters(q: State, s: Step)
    requires Counters(q) && Can(q, s)
    ensures Counters(Do(q, s)) && |Do(q, s).threads| == |q.threads|
  {
    hide Counted, Starting;
    if OfThread(s) {
      var r := Do(q, s);
      MovesOne(q, s);
      MoveCounts(q.threads, s.t, r.threads[s.t]);
    } else {
      ControlStep(q, s);
    }
  }

  /** The steps of a thread that runs the service. */
  predicate OfThread(s: Step) {
    !(s.PostFlush? || s.Request? || s.PostFirst? || s.SeeAll? || s.Unpark? || s.Post? || s.DropStale?)
  }

  lemma MovesOne(q: State, s: Step)
    requires Can(q, s) && OfThread(s)
    ensures s.t < |q.threads| && |Do(q, s).threads| == |q.threads|
    ensures Do(q, s).threads == q.threads[s.t := Do(q, s).threads[s.t]]
  {
  }

  lemma ControlStep(q: State, s: Step)
    requires Counters(q) && Can(q, s) && !OfThread(s)
    ensures Do(q, s).threads == q.threads && Counters(Do(q, s))
  {
    hide Counted, Starting;
  }

  /** In every run, the counter equals the number of threads between counting up and down. */
  lemma {:induction false} RunCounters(q: State, steps: seq<Step>, r: State)
    requires Counters(q) && Leads(q, steps, r)
    ensures Counters(r) && |r.threads| == |q.threads|
    decreases |steps|
  {
    if steps != [] {
      StepCounters(q, steps[0]);
      RunCounters(Do(q, steps[0]), steps[1..], r);
    }
  }

  // ----- Safety -------------------------------------------------------------------------------

  predicate NoneLeaving(q: State) {
    forall t :: 0 <= t < |q.threads| ==> q.threads[t].place != Leaving
  }

  predicate AllInLoop(q: State) {
    forall t :: 0 <= t < |q.threads| ==> q.threads[t].place == InLoop
  }

  /** What holds while a request that found no thread leaving is being served. */
  ghost predicate Serving(q: State) {
    && Counters(q)
    && (q.parking ==> NoneLeaving(q))
    && (q.control == AllParked ==> AllInLoop(q))
  }

  lemma {:induction false} AllCounted(threads: seq<Thread>)
    requires Counted(threads) >= |threads|
    ensures forall t :: 0 <= t < |threads| ==> threads[t].place in {InLoop, Leaving}
  {
    if threads != [] {
      CountedAtMost(threads[1..]);
      AllCounted(threads[1..]);
    }
  }

  lemma {:induction false} CountedAtMost(threads: seq<Thread>)
    ensures Counted(threads) <= |threads|
  {
    if threads != [] { CountedAtMost(threads[1..]); }
  }

  lemma StepServing(q: State, s: Step)
    requires Serving(q) && Can(q, s) && (s == Request ==> NoneLeaving(q))
    ensures Serving(Do(q, s))
  {
    var r := Do(q, s);
    StepCounters(q, s);
    if r.parking { StepNoneLeaving(q, s); }
    if s == SeeAll {
      SeenAll(q);
    } else if r.control == AllParked {
      StepAllInLoop(q, s);
    }
    hide Counters, NoneLeaving, AllInLoop;
  }

  lemma StepNoneLeaving(q: State, s: Step)
    requires Can(q, s) && NoneLeaving(q) && (q.parking || s == Request)
    ensures NoneLeaving(Do(q, s))
  {
  }

  lemma StepAllInLoop(q: State, s: Step)
    requires Can(q, s) && AllInLoop(q) && q.parking
    ensures AllInLoop(Do(q, s))
  {
  }

  lemma SeenAll(q: State)
    requires q.parked == Counted(q.threads) && Can(q, SeeAll) && NoneLeaving(q)
    ensures AllInLoop(Do(q, SeeAll))
  {
    AllCounted(q.threads);
  }

  /** Every request in the run finds no thread that is just leaving the park loop. */
  ghost predicate Calm(q: State, steps: seq<Step>)
    decreases |steps|
  {
    steps != [] ==>
      Can(q, steps[0]) && (steps[0] == Request ==> NoneLeaving(q)) && Calm(Do(q, steps[0]), steps[1..])
  }

  /** In every calm run, from the return of `ParkThreads` until `parking` is cleared all
      threads are in the park loop, so none runs a handler. */
  lemma {:induction false} ParkedSafely(q: State, steps: seq<Step>, r: State)
    requires Serving(q) && Leads(q, steps, r) && Calm(q, steps)
    ensures Serving(r) && (r.control == AllParked ==> AllInLoop(r))
    decreases |steps|
  {
    if steps != [] {
      StepServing(q, steps[0]);
      ParkedSafely(Do(q, steps[0]), steps[1..], r);
    }
  }

  // ----- When a request is safe -----------------------------------------------------------------

  /** However the run goes on, all threads are in the park loop between the return of
      `ParkThreads` and clearing `parking`. */
  ghost predicate SafeRequest(q: State)
    requires Can(q, Request)
  {
    forall steps, r :: Leads(Do(q, Request), steps, r) && Unpark !in steps && r.control == AllParked ==> AllInLoop(r)
  }

  /** A thread whose call of `ParkThread` will post the next parking task. */
  predicate Carrier(th: Thread) {
    th.place == Checking || (th.waiting > 0 && (th.place == Free || th.place.Running?))
  }

  predicate Uncounted(th: Thread) {
    th.place != InLoop && th.place != Leaving
  }

  /** A parking task is queued, or a thread will post one. */
  ghost predicate Supplied(q: State) {
    q.parkTasks > 0 || exists t :: 0 <= t < |q.threads| && Carrier(q.threads[t])
  }

  /** The reloading thread waits for the count. */
  ghost predicate Filling(q: State) {
    Counters(q) && q.control == Awaiting && Supplied(q)
  }

  /** Every thread that was leaving still is. */
  ghost predicate StillLeaving(q: State, r: State) {
    && |r.threads| == |q.threads|
    && forall t :: 0 <= t < |q.threads| && q.threads[t].place == Leaving ==> r.threads[t].place == Leaving
  }

  /** How far a thread is from the park loop. */
  function Distance(th: Thread): nat {
    match th.place
    case InLoop => 0
    case Leaving => 0
    case Posted => 1
    case Free => if th.waiting > 0 then 2 else 4
    case Checking => 3
    case Running(_) => 5
  }

  function Distances(threads: seq<Thread>): nat {
    if threads == [] then 0 else Distance(threads[0]) + Distances(threads[1..])
  }

  function Measure(q: State): nat {
    10 * q.startTasks + Distances(q.threads)
  }

  lemma {:induction false} MoveDistance(threads: seq<Thread>, t: nat, th: Thread)
    requires t < |threads|
    ensures Distances(threads[t := th]) == Distances(threads) - Distance(threads[t]) + Distance(th)
  {
    if t == 0 {
      assert threads[t := th][1..] == threads[1..];
    } else {
      assert threads[t := th][1..] == threads[1..][t - 1 := th];
      MoveDistance(threads[1..], t - 1, th);
    }
  }

  lemma {:induction false} SomeStarting(threads: seq<Thread>) returns (t: nat)
    requires Starting(threads) > 0
    ensures t < |threads| && threads[t].place == Running(Start)
  {
    if threads[0].place == Running(Start) {
      t := 0;
    } else {
      t := SomeStarting(threads[1..]);
      t := t + 1;
    }
  }

  lemma {:induction false} StartingAt(threads: seq<Thread>, t: nat)
    requires t < |threads| && threads[t].place == Running(Start)
    ensures Starting(threads) > 0
  {
    if t > 0 { StartingAt(threads[1..], t - 1); }
  }

  /** The step a thread takes on its way to the park loop, when startup does not hold it up. */
  function Towards(q: State, t: nat): Step
    requires t < |q.threads|
  {
    match q.threads[t].place
    case Posted => CountUp(t)
    case Checking => Check(t)
    case Running(_) => Finish(t, 0)
    case Free => if q.threads[t].waiting == 0 then TakePark(t)
      else if q.starting == 0 then PostNext(t) else Take(t, Start)
    case _ => Look(t)
  }

  /** Which thread to move: a carrier first, and among carriers one that runs a handler. */
  lemma Choose(q: State) returns (t: nat)
    requires Filling(q) && exists t :: 0 <= t < |q.threads| && Uncounted(q.threads[t])
    ensures t < |q.threads| && Uncounted(q.threads[t]) && Can(q, Towards(q, t))
  {
    t :| 0 <= t < |q.threads| && Uncounted(q.threads[t]);
    if k :| 0 <= k < |q.threads| && Carrier(q.threads[k]) { t := k; }
    if q.starting > 0 && q.startTasks == 0 { t := SomeStarting(q.threads); }
    if q.threads[t].place == Running(Start) { StartingAt(q.threads, t); }
  }

  lemma MovesOn(q: State, t: nat)
    requires Filling(q) && t < |q.threads| && Uncounted(q.threads[t]) && Can(q, Towards(q, t))
    ensures var r := Do(q, Towards(q, t)); Filling(r) && Measure(r) < Measure(q) && StillLeaving(q, r)
  {
    hide Counted, Starting, Supplied, Distances;
    var s := Towards(q, t);
    var r := Do(q, s);
    StepCounters(q, s);
    StepSupplied(q, s);
    assert r.threads == q.threads[t := r.threads[t]];
    MoveDistance(q.threads, t, r.threads[t]);
  }

  /** From any such state all threads can still get into the counted section. */
  lemma {:induction false} Fill(q: State) returns (steps: seq<Step>, r: State)
    requires Filling(q)
    ensures Leads(q, steps, r) && Unpark !in steps && Filling(r) && StillLeaving(q, r)
    ensures forall t :: 0 <= t < |r.threads| ==> !Uncounted(r.threads[t])
    decreases Measure(q)
  {
    if exists t :: 0 <= t < |q.threads| && Uncounted(q.threads[t]) {
      hide Filling, Do, Can, Towards, Measure;
      var t := Choose(q);
      MovesOn(q, t);
      TowardsIs(q, t);
      var rest;
      rest, r := Fill(Do(q, Towards(q, t)));
      steps := [Towards(q, t)] + rest;
      assert steps[1..] == rest;
    } else {
      steps, r := [], q;
    }
  }

  lemma TowardsIs(q: State, t: nat)
    requires t < |q.threads|
    ensures Towards(q, t) != Unpark
  {
  }

  lemma {:induction false} CountedAll(threads: seq<Thread>)
    requires forall t :: 0 <= t < |threads| ==> !Uncounted(threads[t])
    ensures Counted(threads) == |threads|
  {
    if threads != [] { CountedAll(threads[1..]); }
  }

  lemma {:induction false} Append(q: State, steps: seq<Step>, r: State, s: Step)
    requires Leads(q, steps, r) && Can(r, s)
    ensures Leads(q, steps + [s], Do(r, s))
    decreases |steps|
  {
    if steps == [] {
      assert [s][1..] == [];
    } else {
      Append(Do(q, steps[0]), steps[1..], r, s);
      assert (steps + [s])[1..] == steps[1..] + [s];
    }
  }

  /** A reload that waits can always still go on: there is a run to the return of
      `ParkThreads`. */
  lemma Completes(q: State) returns (steps: seq<Step>, r: State)
    requires Filling(q)
    ensures Leads(q, steps, r) && Unpark !in steps && r.control == AllParked && StillLeaving(q, r)
  {
    hide Leads, Supplied;
    var rest, m := Fill(q);
    CountedAll(m.threads);
    Append(q, rest, m, SeeAll);
    steps, r := rest + [SeeAll], Do(m, SeeAll);
  }

  /** What every run keeps: while the reload waits, the supply of parking tasks never ends. */
  ghost predicate Going(q: State) {
    Counters(q) && (q.control == Awaiting ==> Supplied(q))
  }

  lemma StepGoing(q: State, s: Step)
    requires Going(q) && Can(q, s)
    ensures Going(Do(q, s))
  {
    hide Counted, Starting, Supplied;
    StepCounters(q, s);
    if q.control == Awaiting {
      StepSupplied(q, s);
    } else if s == PostFirst {
      TaskSupplies(Do(q, s));
    }
  }

  lemma TaskSupplies(q: State)
    requires q.parkTasks > 0
    ensures Supplied(q)
  {
  }

  lemma StepSupplied(q: State, s: Step)
    requires Supplied(q) && q.parking && q.control == Awaiting && Can(q, s)
    ensures Supplied(Do(q, s))
  {
    var r := Do(q, s);
    if q.parkTasks == 0 {
      var k :| 0 <= k < |q.threads| && Carrier(q.threads[k]);
      assert r.parkTasks == 0 ==> Carrier(r.threads[k]);
    } else if s.TakePark? {
      assert Carrier(r.threads[s.t]);
    }
  }

  lemma {:induction false} RunGoing(q: State, steps: seq<Step>, r: State)
    requires Going(q) && Leads(q, steps, r)
    ensures Going(r)
    decreases |steps|
  {
    if steps != [] {
      hide Going;
      StepGoing(q, steps[0]);
      RunGoing(Do(q, steps[0]), steps[1..], r);
    }
  }

  /** No deadlock: in every reachable state in which a reload waits for the threads, some
      continuation lets `ParkThreads` return. */
  lemma NeverStuck(q: State, steps: seq<Step>, r: State) returns (more: seq<Step>, t: State)
    requires Initial(q) && Leads(q, steps, r) && r.control == Awaiting
    ensures Leads(r, more, t) && Unpark !in more && t.control == AllParked
  {
    hide Leads, Supplied, Counted, Starting;
    InitialCounters(q);
    RunGoing(q, steps, r);
    more, t := Completes(r);
  }

  // ----- After a reload --------------------------------------------------------------------------

  /** What a thread still has to do when nobody parks. */
  function Load(th: Thread): nat {
    6 * th.waiting + match th.place
                     case Free => 0
                     case Running(_) => 1
                     case Checking => 1
                     case Leaving => 1
                     case InLoop => 2
                     case Posted => 3
  }

  function Loads(threads: seq<Thread>): nat {
    if threads == [] then 0 else Load(threads[0]) + Loads(threads[1..])
  }

  function Work(q: State): nat {
    2 * q.startTasks + 2 * q.parkTasks + Loads(q.threads)
  }

  lemma {:induction false} MoveLoad(threads: seq<Thread>, t: nat, th: Thread)
    requires t < |threads|
    ensures Loads(threads[t := th]) == Loads(threads) - Load(threads[t]) + Load(th)
  {
    hide Load;
    if t == 0 {
      assert threads[t := th][1..] == threads[1..];
    } else {
      assert threads[t := th][1..] == threads[1..][t - 1 := th];
      MoveLoad(threads[1..], t - 1, th);
    }
  }

  lemma {:induction false} NoLoad(threads: seq<Thread>)
    requires Loads(threads) == 0
    ensures forall t :: 0 <= t < |threads| ==> threads[t] == Thread(Free, 0)
  {
    if threads != [] { NoLoad(threads[1..]); }
  }

  /** The step of a thread that does something else than wait for a task. */
  function Away(q: State, t: nat): Step
    requires t < |q.threads|
  {
    match q.threads[t].place
    case Running(_) => Finish(t, 0)
    case Checking => Check(t)
    case Posted => CountUp(t)
    case InLoop => Look(t)
    case Leaving => CountDown(t)
    case Free => PostNext(t)
  }

  /** Outside of a reload, a thread has a step that leaves less to do. */
  lemma Busy(q: State) returns (s: Step)
    requires Counters(q) && !q.parking && q.threads != [] && Work(q) > 0
    ensures Can(q, s) && Lightens(q, s)
  {
    hide Counted, Starting, Loads, Load, Lightens, Work;
    if t :| 0 <= t < |q.threads| && q.threads[t].place != Free {
      if q.threads[t].place == Running(Start) { StartingAt(q.threads, t); }
      if q.threads[t].place == Leaving { CountedAt(q.threads, t); }
      s := Away(q, t);
    } else if q.startTasks > 0 {
      s := Take(0, Start);
    } else if q.parkTasks > 0 {
      s := TakePark(0);
    } else {
      if Starting(q.threads) > 0 { var t := SomeStarting(q.threads); }
      WaitingLeft(q);
      var t :| 0 <= t < |q.threads| && q.threads[t].waiting > 0;
      s := Away(q, t);
    }
    Lighter(q, s);
  }

  /** The step leaves less to do, and nobody starts to park. */
  ghost predicate Lightens(q: State, s: Step)
    requires Can(q, s)
  {
    Work(Do(q, s)) < Work(q) && !Do(q, s).parking
  }

  lemma Lighter(q: State, s: Step)
    requires Can(q, s) && !q.parking && OfThread(s) && (s.Take? ==> s.task == Start)
    ensures Lightens(q, s)
  {
    hide Loads;
    MovesOne(q, s);
    MoveLoad(q.threads, s.t, Do(q, s).threads[s.t]);
  }

  lemma WaitingLeft(q: State)
    requires Work(q) > 0 && q.startTasks == 0 && q.parkTasks == 0
    requires forall t :: 0 <= t < |q.threads| ==> q.threads[t].place == Free
    ensures exists t :: 0 <= t < |q.threads| && q.threads[t].waiting > 0
  {
    LoadedSome(q.threads);
  }

  lemma {:induction false} LoadedSome(threads: seq<Thread>)
    requires Loads(threads) > 0 && forall t :: 0 <= t < |threads| ==> threads[t].place == Free
    ensures exists t :: 0 <= t < |threads| && threads[t].waiting > 0
  {
    if threads[0].waiting == 0 {
      LoadedSome(threads[1..]);
      var t :| 0 <= t < |threads[1..]| && threads[1..][t].waiting > 0;
      assert threads[t + 1].waiting > 0;
    }
  }

  /** From every state outside of a reload there is a run in which all threads get back to waiting for
      tasks, with no parking task left over and nobody counted. */
  lemma {:induction false} Resumes(q: State) returns (steps: seq<Step>, r: State)
    requires Counters(q) && !q.parking && q.threads != []
    ensures Leads(q, steps, r) && |r.threads| == |q.threads| && !r.parking
    ensures forall t :: 0 <= t < |r.threads| ==> r.threads[t] == Thread(Free, 0)
    ensures r.parkTasks == 0 && r.startTasks == 0 && r.starting == 0 && r.parked == 0
    decreases Work(q)
  {
    if Work(q) > 0 {
      var s := Busy(q);
      StepCounters(q, s);
      var rest;
      rest, r := Resumes(Do(q, s));
      steps := [s] + rest;
      First(q, s, rest, r);
    } else {
      steps, r := [], q;
      NoLoad(q.threads);
      NoneCounted(q.threads);
    }
  }

  /** With a thread just leaving the loop, a run exists in which `ParkThreads` counts that
      thread although it is on its way to the next handler. */
  lemma Unsafe(q: State, l: nat) returns (steps: seq<Step>, r: State)
    requires Counters(q) && q.control == Flushed && At(q, l, Leaving)
    ensures Leads(Do(q, Request), steps, r) && Unpark !in steps && r.control == AllParked && At(r, l, Leaving)
  {
    var q1 := Do(q, Request);
    var q2 := Do(q1, PostFirst);
    StepCounters(q, Request);
    StepCounters(q1, PostFirst);
    hide Counters, Leads;
    var rest;
    rest, r := Completes(q2);
    steps := [PostFirst] + rest;
    First(q1, PostFirst, rest, r);
  }

  lemma First(q: State, s: Step, rest: seq<Step>, r: State)
    requires Can(q, s) && Leads(Do(q, s), rest, r)
    ensures Leads(q, [s] + rest, r)
  {
    hide Do, Can;
    assert ([s] + rest)[1..] == rest;
  }

  lemma {:induction false} ServedCalmly(q: State, steps: seq<Step>, r: State)
    requires q.control in {Requested, Awaiting, AllParked} && Leads(q, steps, r) && Unpark !in steps
    ensures Calm(q, steps)
    decreases |steps|
  {
    if steps != [] {
      assert steps[0] in steps;
      ServedCalmly(Do(q, steps[0]), steps[1..], r);
    }
  }

  /** A request is safe exactly when it finds no thread between leaving the park loop of an
      earlier reload and counting itself down. */
  lemma SafeIff(q: State)
    requires Counters(q) && q.control == Flushed
    ensures SafeRequest(q) <==> NoneLeaving(q)
  {
    if NoneLeaving(q) {
      forall steps, r | Leads(Do(q, Request), steps, r) && Unpark !in steps && r.control == AllParked
        ensures AllInLoop(r)
      {
        StepServing(q, Request);
        ServedCalmly(Do(q, Request), steps, r);
        ParkedSafely(Do(q, Request), steps, r);
      }
    } else {
      var l :| 0 <= l < |q.threads| && q.threads[l].place == Leaving;
      var steps, r := Unsafe(q, l);
      assert r.threads[l].place != InLoop;
    }
  }

  /** What a caller can test: when nobody is counted, parking is safe. */
  lemma SafeWhenNobodyCounted(q: State)
    requires Counters(q) && q.control == Flushed && q.parked == 0
    ensures SafeRequest(q)
  {
    hide Counted, SafeRequest;
    forall t | 0 <= t < |q.threads| ensures q.threads[t].place != Leaving {
      if q.threads[t].place == Leaving { CountedAt(q.threads, t); }
    }
    SafeIff(q);
  }

  lemma {:induction false} CountedAt(threads: seq<Thread>, t: nat)
    requires t < |threads| && !Uncounted(threads[t])
    ensures Counted(threads) > 0
  {
    if t > 0 { CountedAt(threads[1..], t - 1); }
  }

  // ----- The unsafe state is reachable ------------------------------------------------------------

  lemma {:induction false} Join(q: State, first: seq<Step>, m: State, second: seq<Step>, r: State)
    requires Leads(q, first, m) && Leads(m, second, r)
    ensures Leads(q, first + second, r)
    decreases |first|
  {
    if first == [] {
      assert first + second == second;
    } else {
      Join(Do(q, first[0]), first[1..], m, second, r);
      assert (first + second)[1..] == first[1..] + second;
    }
  }

  lemma StandStill(q: State)
    ensures Leads(q, [], q)
  {
  }

  /** The first `k` of `n` threads are in the park loop. */
  function Parked(n: nat, k: nat): State
    requires k <= n
  {
    State(seq(n, i => Thread(if i < k then InLoop else Free, 0)), 1, 0, 0, 0, 0, true, k, Awaiting)
  }

  lemma ParkOne(n: nat, k: nat) returns (steps: seq<Step>)
    requires k < n
    ensures Leads(Parked(n, k), steps, Parked(n, k + 1))
  {
    var q := Parked(n, k);
    var q1 := Do(q, TakePark(k));
    var q2 := Do(q1, Check(k));
    var q3 := Do(q2, PostNext(k));
    var q4 := Do(q3, CountUp(k));
    assert q4.threads == Parked(n, k + 1).threads;
    hide Leads;
    StandStill(q);
    Append(q, [], q, TakePark(k));
    Append(q, [] + [TakePark(k)], q1, Check(k));
    Append(q, [] + [TakePark(k)] + [Check(k)], q2, PostNext(k));
    Append(q, [] + [TakePark(k)] + [Check(k)] + [PostNext(k)], q3, CountUp(k));
    steps := [] + [TakePark(k)] + [Check(k)] + [PostNext(k)] + [CountUp(k)];
  }

  lemma {:induction false} ParkMany(n: nat, k: nat) returns (steps: seq<Step>)
    requires k <= n
    ensures Leads(Parked(n, 0), steps, Parked(n, k))
  {
    hide Leads, Parked;
    if k == 0 {
      steps := [];
      StandStill(Parked(n, 0));
    } else {
      var most := ParkMany(n, k - 1);
      var last := ParkOne(n, k - 1);
      Join(Parked(n, 0), most, Parked(n, k - 1), last, Parked(n, k));
      steps := most + last;
    }
  }

  lemma Then(q: State, steps: seq<Step>, r: State, s: Step) returns (more: seq<Step>, r': State)
    requires Leads(q, steps, r) && Can(r, s)
    ensures more == steps + [s] && r' == Do(r, s) && Leads(q, more, r')
  {
    Append(q, steps, r, s);
    more, r' := steps + [s], Do(r, s);
  }

  /** For two or more threads, one complete reload and the start of another lead to a state
      in which parking is unsafe. */
  lemma Race(n: nat) returns (q: State, steps: seq<Step>, r: State)
    requires n > 1
    ensures Initial(q) && |q.threads| == n && Leads(q, steps, r) && r.control == Flushed && !SafeRequest(r)
  {
    q := Fresh(n);
    InitialCounters(q);
    hide Leads, SafeRequest, Counted, Starting, Counters, NoneLeaving;
    var first := FirstReload(n);
    var second;
    second, r := SecondReload(n);
    Join(q, first, Parked(n, n), second, r);
    steps := first + second;
    RunCounters(q, steps, r);
    LeavingOne(r, 0);
    SafeIff(r);
  }

  lemma LeavingOne(q: State, t: nat)
    requires At(q, t, Leaving)
    ensures !NoneLeaving(q)
  {
  }

  /** `n` threads before anything was posted. */
  function Fresh(n: nat): State {
    State(seq(n, _ => Thread(Free, 0)), 0, 0, 0, 0, 0, false, 0, Idle)
  }

  /** A reload parks all threads. */
  lemma FirstReload(n: nat) returns (steps: seq<Step>)
    requires n > 1
    ensures Leads(Fresh(n), steps, Parked(n, n))
  {
    hide Leads;
    var q, r := Fresh(n), Fresh(n);
    StandStill(q);
    steps, r := Then(q, [], q, PostFlush);
    steps, r := Then(q, steps, r, Take(0, Flush));
    steps, r := Then(q, steps, r, Finish(0, 0));
    steps, r := Then(q, steps, r, Request);
    steps, r := Then(q, steps, r, PostFirst);
    assert r.threads == Parked(n, 0).threads;
    var middle := ParkMany(n, n);
    Join(q, steps, r, middle, Parked(n, n));
    steps := steps + middle;
  }

  /** It ends, thread 0 stays behind, and the next reload flushes. */
  lemma SecondReload(n: nat) returns (steps: seq<Step>, r: State)
    requires n > 1
    ensures Leads(Parked(n, n), steps, r) && r.control == Flushed && At(r, 0, Leaving)
  {
    hide Leads;
    var q := Parked(n, n);
    StandStill(q);
    steps, r := Then(q, [], q, SeeAll);
    steps, r := Then(q, steps, r, Unpark);
    steps, r := Then(q, steps, r, Look(0));
    steps, r := Then(q, steps, r, Look(1));
    steps, r := Then(q, steps, r, CountDown(1));
    steps, r := Then(q, steps, r, PostFlush);
    steps, r := Then(q, steps, r, Take(1, Flush));
    steps, r := Then(q, steps, r, Finish(1, 0));
  }
}
