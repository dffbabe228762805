/**
 The thread pool as an object.  Every method is one critical section of the original and does
 what the transition system says.
 */
module ThreadPool {
  import opened PoolMachine

  class ThreadPool {
    var maxNum: int
    var liveNum: int
    var busyNum: int
    var destroyNum: int
    var shutdown: bool
    var taskQ: seq<Task>
    var workerThreads: seq<Slot>
    ghost var managerDone: bool
    ghost var phase: Phase
    ghost var accepted: seq<Task>
    ghost var started: seq<Task>
    ghost var finished: multiset<Task>

    ghost function State(): Pool
      reads this
    {
      Pool(maxNum, liveNum, busyNum, destroyNum, shutdown, taskQ, workerThreads, managerDone, phase,
           accepted, started, finished)
    }

    /** The constructor, on a machine with this many processors. */
    constructor (hardwareConcurrency: int)
      requires hardwareConcurrency >= MIN_THREAD_NUMBER
      ensures State() == Initial(hardwareConcurrency)
    {
      maxNum := hardwareConcurrency;
      liveNum, busyNum, destroyNum := MIN_THREAD_NUMBER, 0, 0;
      shutdown := false;
      taskQ := [];
      managerDone, phase, accepted, started, finished := false, Open, [], [], multiset{};
      new;
      workerThreads := seq(maxNum, _ => Empty);
      for i := 0 to MIN_THREAD_NUMBER
        invariant maxNum == hardwareConcurrency
        invariant workerThreads == seq(i, _ => Ready) + seq(maxNum - i, _ => Empty)
        invariant State() == Initial(hardwareConcurrency).(slots := workerThreads)
      {
        workerThreads := workerThreads[i := Ready];
      }
    }

    /** `add_task` */
    method AddTask(task: Task)
      modifies this
      ensures State() == Next(old(State()), Submit(task))
    {
      if shutdown { return; }
      taskQ := taskQ + [task];
      accepted := accepted + [task];
    }

    /** What a worker that holds the lock does at the inner loop's test and behind it. */
    method Proceed(i: nat)
      requires i < |workerThreads|
      modifies this
      ensures State() == Proceeded(old(State()), i)
    {
      if taskQ == [] && !shutdown {
        workerThreads := workerThreads[i := Waiting];
        return;
      }
      if shutdown {
        workerThreads := workerThreads[i := Exited];
        return;
      }
      var task := taskQ[0];
      taskQ := taskQ[1..];
      busyNum := busyNum + 1;
      workerThreads := workerThreads[i := Running(task)];
      started := started + [task];
    }

    /** `worker_execute` from the head of its loop. */
    method WorkerEnters(i: nat)
      requires Enabled(State(), Enter(i))
      modifies this
      ensures State() == Next(old(State()), Enter(i))
    {
      Proceed(i);
    }

    /** `worker_execute` behind the wait. */
    method WorkerWakes(i: nat)
      requires Enabled(State(), Wake(i))
      modifies this
      ensures State() == Next(old(State()), Wake(i))
    {
      if destroyNum > 0 {
        destroyNum := destroyNum - 1;
        if liveNum > MIN_THREAD_NUMBER {
          liveNum := liveNum - 1;
          workerThreads := workerThreads[i := Empty];
          return;
        }
      }
      Proceed(i);
    }

    /** `worker_execute` behind its task. */
    method WorkerFinishes(i: nat)
      requires Enabled(State(), Finish(i))
      modifies this
      ensures State() == Next(old(State()), Finish(i))
    {
      busyNum := busyNum - 1;
      finished := finished + multiset{workerThreads[i].task};
      workerThreads := workerThreads[i := Ready];
    }

    /** The manager's scan for free slots: it adds exactly the threads that it may. */
    method AddThreads()
      requires Inv(State()) && !shutdown && |taskQ| > liveNum && liveNum < maxNum
      modifies this
      ensures var p := old(State());
              State() == p.(slots := Filled(p.slots, Growth(p)), liveNum := p.liveNum + Growth(p))
    {
      hide Filled, Occupied, RunningTasks;
      ghost var p, growth := State(), Growth(State());
      ScanBegins(p.slots, growth);
      var count := 0;
      var i := 0;
      while i < maxNum && count < CHANGE_THREAD_NUMBER && liveNum < maxNum
        invariant 0 <= i <= |p.slots| == maxNum && 0 <= count <= growth
        invariant Scanned(p.slots, workerThreads, i, count, growth)
        invariant State() == p.(slots := workerThreads, liveNum := p.liveNum + count)
      {
        ScanStep(p.slots, workerThreads, i, count, growth);
        if workerThreads[i] == Empty {
          workerThreads := workerThreads[i := Ready];
          count := count + 1;
          liveNum := liveNum + 1;
        }
        i := i + 1;
      }
      ScanEnds(p.slots, workerThreads, i, count, growth);
    }

    /** One round of `manager_execute`. */
    method ManagerTicks()
      requires Inv(State()) && Enabled(State(), Tick)
      modifies this
      ensures State() == Next(old(State()), Tick)
    {
      hide Filled, Occupied, RunningTasks;
      if shutdown {
        managerDone := true;
        return;
      }
      assert Growth(State()) == 0 ==> Filled(workerThreads, Growth(State())) == workerThreads by {
        FilledNone(workerThreads);
      }
      if |taskQ| > liveNum && liveNum < maxNum {
        AddThreads();
      }
      if busyNum * 2 < liveNum && liveNum > MIN_THREAD_NUMBER {
        destroyNum := CHANGE_THREAD_NUMBER;
      }
    }

    /** The destructor's critical section. */
    method BeginShutdown()
      requires Enabled(State(), Close)
      modifies this
      ensures State() == Next(old(State()), Close)
    {
      shutdown := true;
      destroyNum := 0;
      phase := Closing;
    }
  }

  /** The state of the scan before slot `i`. */
  ghost predicate Scanned(slots: seq<Slot>, now: seq<Slot>, i: nat, count: nat, growth: nat) {
    && |now| == |slots| && i <= |slots| && count <= growth && growth + Occupied(slots) <= |slots|
    && now[i..] == slots[i..]
    && Filled(slots, growth) == now[..i] + Filled(slots[i..], growth - count)
    && Occupied(now) == Occupied(slots) + count
  }

  lemma FilledNone(slots: seq<Slot>)
    ensures Filled(slots, 0) == slots
  {
  }

  lemma ScanBegins(slots: seq<Slot>, growth: nat)
    requires growth + Occupied(slots) <= |slots|
    ensures Scanned(slots, slots, 0, 0, growth)
  {
    hide Filled, Occupied;
    assert slots[0..] == slots;
  }

  lemma ScanStep(slots: seq<Slot>, now: seq<Slot>, i: nat, count: nat, growth: nat)
    requires Scanned(slots, now, i, count, growth) && i < |slots| && count < growth
    ensures now[i] == Empty ==> Scanned(slots, now[i := Ready], i + 1, count + 1, growth)
    ensures now[i] != Empty ==> Scanned(slots, now, i + 1, count, growth)
  {
    hide Filled, Occupied, RunningTasks;
    FilledStep(slots, i, growth - count);
    assert now[i] == slots[i] by { assert now[i..][0] == slots[i..][0]; }
    if now[i] == Empty {
      SlotUpdate(now, i, Ready);
      assert now[i := Ready][i + 1..] == now[i..][1..] == slots[i + 1..];
      assert now[i := Ready][..i + 1] == now[..i] + [Ready];
    } else {
      assert now[i + 1..] == now[i..][1..] == slots[i + 1..];
      assert now[..i + 1] == now[..i] + [slots[i]];
    }
  }

  lemma ScanEnds(slots: seq<Slot>, now: seq<Slot>, i: nat, count: nat, growth: nat)
    requires Scanned(slots, now, i, count, growth) && (i == |slots| || count == growth)
    ensures count == growth && now == Filled(slots, growth)
  {
    hide Occupied, RunningTasks;
    if i == |slots| {
      FilledCounts(slots, growth);
      assert now == now[..i] + Filled(slots[i..], growth - count);
    } else {
      FilledNone(slots[i..]);
      assert now == now[..i] + now[i..];
    }
  }

  lemma FilledStep(slots: seq<Slot>, i: nat, n: nat)
    requires i < |slots| && n > 0
    ensures Filled(slots[i..], n) ==
            if slots[i] == Empty then [Ready] + Filled(slots[i + 1..], n - 1)
            else [slots[i]] + Filled(slots[i + 1..], n)
  {
    assert slots[i..][1..] == slots[i + 1..];
  }
}
