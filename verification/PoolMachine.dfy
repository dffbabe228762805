/**
 The thread pool as a transition system.  One step is one critical section under the pool's
 mutex: of a submitter, of the manager, of one worker, or of the destructor.
 */
module PoolMachine {

  const MIN_THREAD_NUMBER: int := 3
  const CHANGE_THREAD_NUMBER: int := 2

  /** A task, known by a number. */
  type Task = int

  /** What the thread in a slot of `worker_threads` is doing: about to take the lock, asleep on
      the condition variable, inside a task, or returned but not yet joined. */
  datatype Slot = Empty | Ready | Waiting | Running(task: Task) | Exited

  /** How far the destructor is: not called, waiting for the manager, or joining the workers
      from slot `next` on, of which `reaped` had a thread. */
  datatype Phase = Open | Closing | Joining(next: nat, reaped: nat)

  /** `accepted`, `started` and `finished` are the history of the tasks. */
  datatype Pool = Pool(
    maxNum: int, liveNum: int, busyNum: int, destroyNum: int, shutdown: bool,
    taskQ: seq<Task>, slots: seq<Slot>, managerDone: bool, phase: Phase,
    accepted: seq<Task>, started: seq<Task>, finished: multiset<Task>)

  datatype Step = Submit(task: Task) | Tick | Enter(i: nat) | Wake(i: nat) | Finish(i: nat)
                | Close | JoinManager | JoinWorker

  /** The constructor. */
  function Initial(maxNum: int): Pool
    requires maxNum >= MIN_THREAD_NUMBER
  {
    Pool(maxNum, MIN_THREAD_NUMBER, 0, 0, false, [],
         seq(MIN_THREAD_NUMBER, _ => Ready) + seq(maxNum - MIN_THREAD_NUMBER, _ => Empty),
         false, Open, [], [], multiset{})
  }

  predicate Enabled(p: Pool, step: Step) {
    match step
    case Submit(_) => true
    case Tick => !p.managerDone
    case Enter(i) => i < |p.slots| && p.slots[i] == Ready
    case Wake(i) => i < |p.slots| && p.slots[i] == Waiting
    case Finish(i) => i < |p.slots| && p.slots[i].Running?
    case Close => p.phase == Open
    case JoinManager => p.phase == Closing && p.managerDone
    case JoinWorker => p.phase.Joining? && p.phase.next < |p.slots| &&
                       (p.slots[p.phase.next] == Empty || p.slots[p.phase.next] == Exited)
  }

  /** `add_task` */
  function Submitted(p: Pool, task: Task): Pool {
    if p.shutdown then p else p.(taskQ := p.taskQ + [task], accepted := p.accepted + [task])
  }

  /** The part of `worker_execute` behind the inner loop's test, for the worker in slot `i`:
      sleep again, return, or take a task. */
  function Proceeded(p: Pool, i: nat): Pool
    requires i < |p.slots|
  {
    if p.shutdown then p.(slots := p.slots[i := Exited])
    else if p.taskQ == [] then p.(slots := p.slots[i := Waiting])
    else p.(slots := p.slots[i := Running(p.taskQ[0])], taskQ := p.taskQ[1..],
            busyNum := p.busyNum + 1, started := p.started + [p.taskQ[0]])
  }

  /** A worker that was asleep: it may use up one request to leave. */
  function Woken(p: Pool, i: nat): Pool
    requires i < |p.slots|
  {
    if p.destroyNum > 0 then
      if p.liveNum > MIN_THREAD_NUMBER then
        p.(destroyNum := p.destroyNum - 1, liveNum := p.liveNum - 1, slots := p.slots[i := Empty])
      else Proceeded(p.(destroyNum := p.destroyNum - 1), i)
    else Proceeded(p, i)
  }

  function Finished(p: Pool, i: nat): Pool
    requires i < |p.slots| && p.slots[i].Running?
  {
    p.(busyNum := p.busyNum - 1, slots := p.slots[i := Ready], finished := p.finished + multiset{p.slots[i].task})
  }

  /** The first `n` empty slots get a new thread. */
  function Filled(slots: seq<Slot>, n: nat): seq<Slot> {
    if slots == [] || n == 0 then slots
    else if slots[0] == Empty then [Ready] + Filled(slots[1..], n - 1)
    else [slots[0]] + Filled(slots[1..], n)
  }

  /** How many threads a tick of the manager adds. */
  function Growth(p: Pool): nat {
    if |p.taskQ| > p.liveNum && p.liveNum < p.maxNum then
      if p.maxNum - p.liveNum < CHANGE_THREAD_NUMBER then p.maxNum - p.liveNum else CHANGE_THREAD_NUMBER
    else 0
  }

  /** One round of `manager_execute` behind its sleep. */
  function Ticked(p: Pool): Pool {
    if p.shutdown then p.(managerDone := true)
    else
      var q := p.(slots := Filled(p.slots, Growth(p)), liveNum := p.liveNum + Growth(p));
      if q.busyNum * 2 < q.liveNum && q.liveNum > MIN_THREAD_NUMBER then q.(destroyNum := CHANGE_THREAD_NUMBER) else q
  }

  function Next(p: Pool, step: Step): Pool
    requires Enabled(p, step)
  {
    match step
    case Submit(task) => Submitted(p, task)
    case Tick => Ticked(p)
    case Enter(i) => Proceeded(p, i)
    case Wake(i) => Woken(p, i)
    case Finish(i) => Finished(p, i)
    case Close => p.(shutdown := true, destroyNum := 0, phase := Closing)
    case JoinManager => p.(phase := Joining(0, 0))
    case JoinWorker =>
      var i, reaped := p.phase.next, p.phase.reaped;
      p.(slots := p.slots[i := Empty],
         phase := Joining(i + 1, if p.slots[i] == Empty then reaped else reaped + 1))
  }

  // ----- counting over the slots ---------------------------------------------------

  function Sum(slots: seq<Slot>, f: Slot -> nat): nat {
    if slots == [] then 0 else f(slots[0]) + Sum(slots[1..], f)
  }

  lemma {:induction false} SumUpdate(slots: seq<Slot>, i: nat, x: Slot, f: Slot -> nat)
    requires i < |slots|
    ensures Sum(slots[i := x], f) + f(slots[i]) == Sum(slots, f) + f(x)
  {
    if i == 0 {
      assert slots[0 := x][1..] == slots[1..];
    } else {
      assert slots[i := x][1..] == slots[1..][i - 1 := x];
      SumUpdate(slots[1..], i - 1, x, f);
    }
  }

  function One(slot: Slot): nat { if slot == Empty then 0 else 1 }

  /** The number of slots with a thread. */
  function Occupied(slots: seq<Slot>): nat { Sum(slots, One) }

  function TaskOf(slot: Slot): multiset<Task> {
    if slot.Running? then multiset{slot.task} else multiset{}
  }

  /** The tasks that are being executed. */
  function RunningTasks(slots: seq<Slot>): multiset<Task> {
    if slots == [] then multiset{} else TaskOf(slots[0]) + RunningTasks(slots[1..])
  }

  lemma {:induction false} RunningUpdate(slots: seq<Slot>, i: nat, x: Slot)
    requires i < |slots|
    ensures TaskOf(slots[i]) <= RunningTasks(slots)
    ensures RunningTasks(slots[i := x]) == RunningTasks(slots) - TaskOf(slots[i]) + TaskOf(x)
  {
    hide TaskOf;
    var a, r := TaskOf(slots[0]), RunningTasks(slots[1..]);
    if i == 0 {
      assert slots[0 := x][1..] == slots[1..];
      assert r + TaskOf(x) == (a + r) - a + TaskOf(x);
    } else {
      assert slots[i := x][1..] == slots[1..][i - 1 := x];
      RunningUpdate(slots[1..], i - 1, x);
      Exchange(a, r, TaskOf(slots[i]), TaskOf(x));
    }
  }

  lemma Exchange(a: multiset<Task>, r: multiset<Task>, out: multiset<Task>, add: multiset<Task>)
    requires out <= r
    ensures out <= a + r
    ensures a + (r - out + add) == (a + r) - out + add
  {
  }

  lemma SlotUpdate(slots: seq<Slot>, i: nat, x: Slot)
    requires i < |slots|
    ensures Occupied(slots[i := x]) + One(slots[i]) == Occupied(slots) + One(x)
    ensures TaskOf(slots[i]) <= RunningTasks(slots)
    ensures RunningTasks(slots[i := x]) == RunningTasks(slots) - TaskOf(slots[i]) + TaskOf(x)
    ensures |RunningTasks(slots[i := x])| == |RunningTasks(slots)| - |TaskOf(slots[i])| + |TaskOf(x)|
  {
    SumUpdate(slots, i, x, One);
    RunningUpdate(slots, i, x);
  }

  /** Filling occupies as many slots as asked for, if there are that many empty ones, and
      touches no other slot. */
  lemma {:induction false} FilledCounts(slots: seq<Slot>, n: nat)
    requires n + Occupied(slots) <= |slots|
    ensures |Filled(slots, n)| == |slots| && Occupied(Filled(slots, n)) == Occupied(slots) + n
    ensures RunningTasks(Filled(slots, n)) == RunningTasks(slots)
    ensures forall i | 0 <= i < |slots| ::
              Filled(slots, n)[i] == slots[i] || (slots[i] == Empty && Filled(slots, n)[i] == Ready)
  {
    if slots != [] && n > 0 {
      OccupiedBound(slots[1..]);
      FilledCounts(slots[1..], if slots[0] == Empty then n - 1 else n);
    }
  }

  lemma {:induction false} OccupiedBound(slots: seq<Slot>)
    ensures Occupied(slots) <= |slots|
  {
    if slots != [] { OccupiedBound(slots[1..]); }
  }

  // ----- the invariant ---------------------------------------------------------------

  predicate Inv(p: Pool) {
    && |p.slots| == p.maxNum
    && MIN_THREAD_NUMBER <= p.liveNum <= p.maxNum
    && p.liveNum == Occupied(p.slots) + (if p.phase.Joining? then p.phase.reaped else 0)
    && p.busyNum == |RunningTasks(p.slots)| <= p.liveNum
    && 0 <= p.destroyNum <= CHANGE_THREAD_NUMBER
    && p.accepted == p.started + p.taskQ
    && multiset(p.started) == p.finished + RunningTasks(p.slots)
    && p.shutdown == (p.phase != Open)
    && (p.shutdown ==> p.destroyNum == 0)
    && (p.managerDone ==> p.shutdown)
    && (p.phase.Joining? ==> p.managerDone && p.phase.next <= p.maxNum &&
                             forall i | 0 <= i < p.phase.next :: p.slots[i] == Empty)
    && (forall i | 0 <= i < |p.slots| :: p.slots[i] == Exited ==> p.shutdown)
  }

  /** No more tasks are running than there are threads. */
  lemma {:induction false} RunningBound(slots: seq<Slot>)
    ensures |RunningTasks(slots)| <= Occupied(slots)
  {
    if slots != [] { RunningBound(slots[1..]); }
  }

  lemma {:induction false} AllEmpty(n: nat)
    ensures Occupied(seq(n, _ => Empty)) == 0 && RunningTasks(seq(n, _ => Empty)) == multiset{}
  {
    if n > 0 {
      assert seq(n, _ => Empty)[1..] == seq(n - 1, _ => Empty);
      AllEmpty(n - 1);
    }
  }

  lemma InitialHolds(maxNum: int)
    requires maxNum >= MIN_THREAD_NUMBER
    ensures Inv(Initial(maxNum))
  {
    var rest := seq(maxNum - MIN_THREAD_NUMBER, _ => Empty);
    var slots := Initial(maxNum).slots;
    AllEmpty(maxNum - MIN_THREAD_NUMBER);
    assert slots[1..][1..][1..] == rest;
    assert Occupied(slots) == 1 + Occupied(slots[1..]) && Occupied(slots[1..]) == 1 + Occupied(slots[1..][1..]);
    assert RunningTasks(slots) == RunningTasks(slots[1..]) == RunningTasks(slots[1..][1..]);
  }

  lemma ProceededKeeps(p: Pool, i: nat)
    requires Inv(p) && i < |p.slots| && (p.slots[i] == Ready || p.slots[i] == Waiting)
    ensures Inv(Proceeded(p, i))
  {
    hide Occupied, RunningTasks;
    if !p.shutdown && p.taskQ != [] {
      TakenKeeps(p, i);
    } else {
      var x := if p.shutdown then Exited else Waiting;
      SlotUpdate(p.slots, i, x);
    }
  }

  lemma TakenKeeps(p: Pool, i: nat)
    requires Inv(p) && i < |p.slots| && (p.slots[i] == Ready || p.slots[i] == Waiting)
    requires !p.shutdown && p.taskQ != []
    ensures Inv(Proceeded(p, i))
  {
    hide Occupied, RunningTasks;
    var x, task := Running(p.taskQ[0]), p.taskQ[0];
    SlotUpdate(p.slots, i, x);
    RunningBound(p.slots[i := x]);
    assert p.started + p.taskQ == (p.started + [task]) + p.taskQ[1..];
    assert multiset(p.started + [task]) == multiset(p.started) + multiset{task};
  }

  lemma WokenKeeps(p: Pool, i: nat)
    requires Inv(p) && i < |p.slots| && p.slots[i] == Waiting
    ensures Inv(Woken(p, i))
  {
    hide Occupied, RunningTasks;
    if p.destroyNum > 0 && p.liveNum > MIN_THREAD_NUMBER {
      SlotUpdate(p.slots, i, Empty);
      RunningBound(p.slots[i := Empty]);
    } else if p.destroyNum > 0 {
      ProceededKeeps(p.(destroyNum := p.destroyNum - 1), i);
    } else {
      ProceededKeeps(p, i);
    }
  }

  lemma TickedKeeps(p: Pool)
    requires Inv(p) && !p.managerDone
    ensures Inv(Ticked(p))
    ensures !p.shutdown ==> Occupied(Ticked(p).slots) == Occupied(p.slots) + Growth(p)
  {
    hide Occupied, RunningTasks;
    if !p.shutdown {
      FilledCounts(p.slots, Growth(p));
      RunningBound(Filled(p.slots, Growth(p)));
    }
  }

  lemma FinishedKeeps(p: Pool, i: nat)
    requires Inv(p) && i < |p.slots| && p.slots[i].Running?
    ensures Inv(Finished(p, i))
  {
    hide Occupied, RunningTasks;
    SlotUpdate(p.slots, i, Ready);
    RunningBound(p.slots[i := Ready]);
  }

  lemma JoinedKeeps(p: Pool)
    requires Inv(p) && Enabled(p, JoinWorker)
    ensures Inv(Next(p, JoinWorker))
  {
    hide Occupied, RunningTasks;
    SlotUpdate(p.slots, p.phase.next, Empty);
    RunningBound(p.slots[p.phase.next := Empty]);
  }

  /** Every step keeps the invariant. */
  lemma StepKeeps(p: Pool, step: Step)
    requires Inv(p) && Enabled(p, step)
    ensures Inv(Next(p, step))
  {
    hide Occupied, RunningTasks, Proceeded, Woken, Ticked, Finished;
    match step
    case Submit(task) =>
      assert (p.started + p.taskQ) + [task] == p.started + (p.taskQ + [task]);
    case Tick => TickedKeeps(p);
    case Enter(i) => ProceededKeeps(p, i);
    case Wake(i) => WokenKeeps(p, i);
    case Finish(i) => FinishedKeeps(p, i);
    case Close =>
    case JoinManager =>
    case JoinWorker => JoinedKeeps(p);
  }

  // ----- runs ----------------------------------------------------------------------------

  predicate CanRun(p: Pool, steps: seq<Step>)
    decreases |steps|
  {
    steps == [] || (Enabled(p, steps[0]) && CanRun(Next(p, steps[0]), steps[1..]))
  }

  function After(p: Pool, steps: seq<Step>): Pool
    requires CanRun(p, steps)
    decreases |steps|
  {
    if steps == [] then p else After(Next(p, steps[0]), steps[1..])
  }

  lemma {:induction false} RunsKeep(p: Pool, steps: seq<Step>)
    requires Inv(p) && CanRun(p, steps)
    ensures Inv(After(p, steps))
    decreases |steps|
  {
    hide Inv, Enabled, Next;
    if steps != [] {
      StepKeeps(p, steps[0]);
      RunsKeep(Next(p, steps[0]), steps[1..]);
    }
  }

  /** In every reachable state: the number of live threads is the number of threads in the
      slots and stays between its limits until the workers are joined, the busy threads are
      those inside a task, and the tasks accepted are those started, in order, followed by
      the queue. */
  lemma ReachableIsSafe(maxNum: int, steps: seq<Step>)
    requires maxNum >= MIN_THREAD_NUMBER && CanRun(Initial(maxNum), steps)
    ensures var p := After(Initial(maxNum), steps);
            && MIN_THREAD_NUMBER <= p.liveNum <= p.maxNum == |p.slots|
            && (!p.phase.Joining? ==> p.liveNum == Occupied(p.slots))
            && p.busyNum == |RunningTasks(p.slots)| <= p.liveNum
            && 0 <= p.destroyNum <= CHANGE_THREAD_NUMBER
            && p.accepted == p.started + p.taskQ
            && multiset(p.started) == p.finished + RunningTasks(p.slots)
  {
    hide Initial, CanRun, After, Occupied, RunningTasks;
    InitialHolds(maxNum);
    RunsKeep(Initial(maxNum), steps);
  }

  // ----- what one critical section does --------------------------------------------------

  /** Nothing differs but the counts, the queue, the started tasks and the slot `i`. */
  predicate OnlyWorker(p: Pool, q: Pool, i: nat)
    requires i < |p.slots|
  {
    && q.maxNum == p.maxNum && q.shutdown == p.shutdown && q.managerDone == p.managerDone && q.phase == p.phase
    && q.accepted == p.accepted && q.finished == p.finished
    && |q.slots| == |p.slots| && forall j | 0 <= j < |p.slots| && j != i :: q.slots[j] == p.slots[j]
  }

  /** A worker that has the lock: it leaves exactly if it was asleep, somebody is asked to leave
      and more than three threads are alive; otherwise it sleeps exactly if no task is queued,
      and takes the first task if there is one. */
  lemma WorkerTakesTask(p: Pool, step: Step, i: nat)
    requires Inv(p) && !p.shutdown && Enabled(p, step) && (step == Enter(i) || step == Wake(i))
    ensures var q := Next(p, step);
            var asked := step == Wake(i) && p.destroyNum > 0;
            && OnlyWorker(p, q, i)
            && (q.slots[i] == Empty <==> asked && p.liveNum > 3)
            && q.liveNum == p.liveNum - (if q.slots[i] == Empty then 1 else 0)
            && q.destroyNum == p.destroyNum - (if asked then 1 else 0)
            && (q.slots[i] == Waiting <==> q.slots[i] != Empty && p.taskQ == [])
            && (q.slots[i] == Empty || q.slots[i] == Waiting ==>
                  q.taskQ == p.taskQ && q.started == p.started && q.busyNum == p.busyNum)
            && (q.slots[i] != Empty && p.taskQ != [] ==>
                  && q.slots[i] == Running(p.taskQ[0]) && [p.taskQ[0]] + q.taskQ == p.taskQ
                  && q.started == p.started + [p.taskQ[0]] && q.busyNum == p.busyNum + 1)
  {
    hide Occupied, RunningTasks, Inv;
    if p.taskQ != [] { assert p.taskQ == [p.taskQ[0]] + p.taskQ[1..]; }
  }

  /** Behind the destructor's call a worker that has the lock returns, and does nothing else. */
  lemma WorkerReturns(p: Pool, step: Step, i: nat)
    requires Inv(p) && p.shutdown && Enabled(p, step) && (step == Enter(i) || step == Wake(i))
    ensures Next(p, step) == p.(slots := p.slots[i := Exited])
  {
    hide Occupied, RunningTasks;
  }

  /** A submission is queued last, unless the destructor has been called. */
  lemma TaskIsQueued(p: Pool, task: Task)
    ensures !p.shutdown ==> Next(p, Submit(task)).taskQ == p.taskQ + [task]
    ensures !p.shutdown ==> Next(p, Submit(task)).accepted == p.accepted + [task]
    ensures Next(p, Submit(task)).(taskQ := p.taskQ, accepted := p.accepted) == p
    ensures p.shutdown ==> Next(p, Submit(task)) == p
  {
  }

  /** A worker behind its task is no longer busy and asks for the lock again; the destructor's
      section forbids further starts and takes back the requests to leave; it waits for the
      manager, and then empties slot after slot. */
  lemma OtherSections(p: Pool, step: Step)
    requires Enabled(p, step)
    ensures step.Finish? ==>
              Next(p, step) == p.(busyNum := p.busyNum - 1, slots := p.slots[step.i := Ready],
                                  finished := p.finished + multiset{p.slots[step.i].task})
    ensures step == Close ==> Next(p, step) == p.(shutdown := true, destroyNum := 0, phase := Closing)
    ensures step == JoinManager ==> Next(p, step) == p.(phase := Joining(0, 0))
    ensures step == JoinWorker ==>
              var i := p.phase.next;
              && Next(p, step).slots == p.slots[i := Empty] && Next(p, step).phase.Joining?
              && Next(p, step).phase.next == i + 1
              && Next(p, step).phase.reaped == p.phase.reaped + (if p.slots[i] == Empty then 0 else 1)
              && Next(p, step).(slots := p.slots, phase := p.phase) == p
  {
    hide Filled, Growth;
  }

  /** The pool starts with three workers about to take the lock, and nothing to do. */
  lemma StartsWithThree(maxNum: int)
    requires maxNum >= MIN_THREAD_NUMBER
    ensures var p := Initial(maxNum);
            && |p.slots| == p.maxNum == maxNum && p.liveNum == 3
            && (forall i | 0 <= i < maxNum :: p.slots[i] == if i < 3 then Ready else Empty)
            && p.taskQ == p.accepted == p.started == [] && p.finished == multiset{}
            && p.busyNum == p.destroyNum == 0 && !p.shutdown && !p.managerDone && p.phase == Open
  {
  }

  /** A tick adds threads exactly if more tasks are queued than threads are alive: two, or up to
      the limit, in the first free slots.  It asks two threads to leave exactly if more than
      three are alive and less than half of them busy.  Nothing else changes. */
  lemma TickGrows(p: Pool)
    requires Inv(p) && !p.shutdown
    ensures var q := Ticked(p);
            && Occupied(q.slots) == Occupied(p.slots) + (q.liveNum - p.liveNum)
            && q.liveNum == (if |p.taskQ| <= p.liveNum then p.liveNum
                             else if p.liveNum + 2 <= p.maxNum then p.liveNum + 2 else p.maxNum)
            && q.destroyNum == (if 2 * p.busyNum < q.liveNum && q.liveNum > 3 then 2 else p.destroyNum)
            && q == p.(slots := q.slots, liveNum := q.liveNum, destroyNum := q.destroyNum)
            && FilledInOrder(p.slots, q.slots)
  {
    hide Occupied, RunningTasks;
    TickedKeeps(p);
    FilledCounts(p.slots, Growth(p));
    FilledFromTheFront(p.slots, Growth(p));
  }

  /** New threads, about to take the lock, in the first free slots; nothing else changes. */
  predicate FilledInOrder(was: seq<Slot>, now: seq<Slot>) {
    && |now| == |was|
    && (forall i | 0 <= i < |was| :: now[i] == was[i] || (was[i] == Empty && now[i] == Ready))
    && forall i, j | 0 <= i < j < |was| && now[i] == Empty && was[j] == Empty :: now[j] == Empty
  }

  lemma {:induction false} FilledFromTheFront(slots: seq<Slot>, n: nat)
    ensures FilledInOrder(slots, Filled(slots, n))
  {
    if slots != [] && n > 0 {
      var rest, k := slots[1..], if slots[0] == Empty then n - 1 else n;
      FilledFromTheFront(rest, k);
      var now := Filled(slots, n);
      assert now == [if slots[0] == Empty then Ready else slots[0]] + Filled(rest, k);
      assert forall i | 0 < i < |slots| :: now[i] == Filled(rest, k)[i - 1] && slots[i] == rest[i - 1];
    }
  }

  /** After the destructor has been called nothing is accepted or started any more. */
  lemma {:induction false} NothingAfterShutdown(p: Pool, steps: seq<Step>)
    requires CanRun(p, steps) && p.shutdown
    ensures var q := After(p, steps);
            q.shutdown && q.accepted == p.accepted && q.started == p.started && q.taskQ == p.taskQ
    decreases |steps|
  {
    if steps != [] {
      ShutdownStays(p, steps[0]);
      NothingAfterShutdown(Next(p, steps[0]), steps[1..]);
    }
  }

  lemma ShutdownStays(p: Pool, step: Step)
    requires Enabled(p, step) && p.shutdown
    ensures var q := Next(p, step);
            q.shutdown && q.accepted == p.accepted && q.started == p.started && q.taskQ == p.taskQ
  {
    hide Filled, Growth;
  }

  /** Tasks start in the order in which they were accepted, each at its own place in that
      order, and what has started stays started. */
  lemma {:induction false} StartsInOrder(p: Pool, steps: seq<Step>)
    requires Inv(p) && CanRun(p, steps)
    ensures var q := After(p, steps);
            p.accepted <= q.accepted && p.started <= q.started <= q.accepted
    decreases |steps|
  {
    hide Occupied, RunningTasks, Filled, Growth;
    if steps != [] {
      StepKeeps(p, steps[0]);
      HistoryGrows(p, steps[0]);
      StartsInOrder(Next(p, steps[0]), steps[1..]);
    }
  }

  lemma HistoryGrows(p: Pool, step: Step)
    requires Enabled(p, step)
    ensures p.accepted <= Next(p, step).accepted && p.started <= Next(p, step).started
  {
    hide Filled, Growth;
  }

  /** Between two ticks of the manager no thread is added, and no more leave than were asked
      to: at most two. */
  lemma {:induction false} FewLeave(p: Pool, steps: seq<Step>)
    requires Inv(p) && CanRun(p, steps) && Tick !in steps
    ensures var q := After(p, steps);
            p.liveNum - p.destroyNum <= q.liveNum - q.destroyNum && p.liveNum - 2 <= q.liveNum <= p.liveNum
    decreases |steps|
  {
    hide Occupied, RunningTasks;
    if steps != [] {
      assert steps[0] != Tick;
      StepKeeps(p, steps[0]);
      RunsKeep(Next(p, steps[0]), steps[1..]);
      StepLeaves(p, steps[0]);
      FewLeave(Next(p, steps[0]), steps[1..]);
    }
  }

  lemma StepLeaves(p: Pool, step: Step)
    requires Enabled(p, step) && step != Tick && 0 <= p.destroyNum
    ensures var q := Next(p, step); p.liveNum - p.destroyNum <= q.liveNum - q.destroyNum && q.liveNum <= p.liveNum
  {
  }

  // ----- the destructor comes to an end -----------------------------------------------------

  function Weight(slot: Slot): nat {
    match slot
    case Empty => 0
    case Exited => 1
    case Ready => 2
    case Waiting => 2
    case Running(_) => 3
  }

  /** How much is left to be done before the destructor returns. */
  function Remaining(p: Pool): nat {
    Sum(p.slots, Weight) + (if p.managerDone then 0 else 1) +
    match p.phase
    case Open => |p.slots| + 2
    case Closing => |p.slots| + 1
    case Joining(next, _) => if next < |p.slots| then |p.slots| - next else 0
  }

  predicate Returned(p: Pool) {
    p.phase.Joining? && p.phase.next == |p.slots|
  }

  /** Once the destructor has been called, every step but a refused submission leaves less
      to be done. */
  lemma ShutdownProgress(p: Pool, step: Step)
    requires Inv(p) && p.shutdown && Enabled(p, step) && !step.Submit?
    ensures Remaining(Next(p, step)) < Remaining(p)
  {
    hide Occupied, RunningTasks, Sum, Filled, Growth;
    var q := Next(p, step);
    match step
    case Tick =>
    case Enter(i) => SumUpdate(p.slots, i, q.slots[i], Weight);
    case Wake(i) => SumUpdate(p.slots, i, q.slots[i], Weight);
    case Finish(i) => SumUpdate(p.slots, i, q.slots[i], Weight);
    case Close =>
    case JoinManager =>
    case JoinWorker => SumUpdate(p.slots, p.phase.next, Empty, Weight);
  }

  /** The step that brings the destructor forward. */
  function Forward(p: Pool): Step
    requires p.phase.Joining? ==> p.phase.next < |p.slots|
  {
    match p.phase
    case Open => Close
    case Closing => if p.managerDone then JoinManager else Tick
    case Joining(i, _) =>
      match p.slots[i]
      case Ready => Enter(i)
      case Waiting => Wake(i)
      case Running(_) => Finish(i)
      case _ => JoinWorker
  }

  /** The destructor is never stuck: until it has returned, some step can be taken that leaves
      less to be done.  Sleeping workers take theirs because all of them are woken. */
  lemma NeverStuck(p: Pool)
    requires Inv(p) && p.shutdown && !Returned(p)
    ensures Enabled(p, Forward(p)) && Remaining(Next(p, Forward(p))) < Remaining(p)
  {
    hide Occupied, RunningTasks, Remaining;
    ShutdownProgress(p, Forward(p));
  }

  /** So every run behind the destructor's call is shorter than what was left to be done. */
  lemma {:induction false} ShutdownEnds(p: Pool, steps: seq<Step>)
    requires Inv(p) && p.shutdown && CanRun(p, steps)
    requires forall step <- steps :: !step.Submit?
    ensures |steps| + Remaining(After(p, steps)) <= Remaining(p)
    decreases |steps|
  {
    hide Inv, Remaining, Next, Enabled;
    if steps != [] {
      assert !steps[0].Submit?;
      StepKeeps(p, steps[0]);
      ShutdownStays(p, steps[0]);
      ShutdownProgress(p, steps[0]);
      ShutdownEnds(Next(p, steps[0]), steps[1..]);
    }
  }

  lemma {:induction false} NoneOccupied(slots: seq<Slot>)
    requires forall i | 0 <= i < |slots| :: slots[i] == Empty
    ensures Occupied(slots) == 0 && RunningTasks(slots) == multiset{}
  {
    if slots != [] { NoneOccupied(slots[1..]); }
  }

  /** When the destructor has returned no thread is left, every started task has been
      finished exactly once, and what was never started is still in the queue. */
  lemma ReturnedIsClean(p: Pool)
    requires Inv(p) && Returned(p)
    ensures forall i | 0 <= i < |p.slots| :: p.slots[i] == Empty
    ensures p.busyNum == 0 && p.liveNum == p.phase.reaped
    ensures multiset(p.accepted) == p.finished + multiset(p.taskQ)
  {
    NoneOccupied(p.slots);
    assert multiset(p.accepted) == multiset(p.started) + multiset(p.taskQ);
  }
}
