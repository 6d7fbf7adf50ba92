/** Every step of the kernel keeps the invariant. */
module TaskInvariants {
  import opened Tasks

  lemma BootInv()
    ensures Inv(Boot())
  {}

  /** Between tasks: everything but the running task is in order. */
  ghost predicate Handover(s: Sys) {
    Listed(s) && Tree(s) && Queued(s) && Channels(s) && NoLostWakeup(s) && NobodyRuns(s)
  }

  ghost predicate NobodyRuns(s: Sys) {
    forall p {:trigger s.tasks[p].state} :: p in s.tasks ==> s.tasks[p].state != Running
  }

  lemma SwitchInv(s: Sys)
    requires Handover(s) && s.queue != []
    ensures s.queue[0] in s.tasks
    ensures Inv(Switch(s))
  {
    assert s.queue[0] in Elems(s.queue);
    SwitchTree(s);
    SwitchQueue(s);
    SwitchWaits(s);
  }

  lemma SwitchTree(s: Sys)
    requires Handover(s) && s.queue != [] && s.queue[0] in s.tasks
    ensures Tree(Switch(s))
  {}

  lemma SwitchQueue(s: Sys)
    requires Handover(s) && s.queue != [] && s.queue[0] in s.tasks
    ensures Listed(Switch(s)) && Queued(Switch(s)) && OneRunning(Switch(s))
  {}

  lemma SwitchWaits(s: Sys)
    requires Handover(s) && s.queue != [] && s.queue[0] in s.tasks
    ensures Channels(Switch(s)) && NoLostWakeup(Switch(s))
  {}

  lemma {:induction false} QueueTail(queue: seq<int>, p: int)
    requires NoDup(queue) && p !in Elems(queue)
    ensures NoDup(queue + [p]) && Elems(queue + [p]) == Elems(queue) + {p}
  {
    if queue == [] {
      assert queue + [p] == [p];
    } else {
      assert (queue + [p])[1..] == queue[1..] + [p];
      QueueTail(queue[1..], p);
    }
  }

  lemma {:induction false} LaterPid(order: seq<int>, p: int)
    requires Increasing(order) && forall q :: q in Elems(order) ==> q < p
    ensures Increasing(order + [p]) && Elems(order + [p]) == Elems(order) + {p}
  {
    if order == [] {
      assert order + [p] == [p];
    } else {
      assert (order + [p])[1..] == order[1..] + [p];
      assert Elems(order) == {order[0]} + Elems(order[1..]);
      assert order[0] in Elems(order);
      forall q | q in Elems(order[1..])
        ensures q < p
      {
        assert q in Elems(order);
      }
      LaterPid(order[1..], p);
    }
  }

  lemma RequeueHandover(s: Sys)
    requires Inv(s)
    ensures Handover(Requeue(s))
  {
    RequeueTree(s);
    RequeueRest(s);
  }

  lemma RequeueTree(s: Sys)
    requires Inv(s)
    ensures Tree(Requeue(s))
  {}

  lemma RequeueRest(s: Sys)
    requires Inv(s)
    ensures var s' := Requeue(s); Listed(s') && Queued(s') && Channels(s') && NoLostWakeup(s') && NobodyRuns(s')
  {
    if s.running in s.tasks && s.tasks[s.running].state == Running {
      QueueTail(s.queue, s.running);
    }
  }

  lemma YieldInv(s: Sys)
    requires Inv(s)
    ensures Inv(Yield(s))
  {
    if s.queue != [] {
      RequeueHandover(s);
      SwitchInv(Requeue(s));
    }
  }

  lemma ScheduleInv(s: Sys)
    requires Inv(s) && s.running == 0
    ensures Inv(Schedule(s))
  {
    if s.queue != [] {
      assert Handover(s) by {
        forall p | p in s.tasks
          ensures s.tasks[p].state != Running
        {}
      }
      SwitchInv(s);
    }
  }

  lemma UserRunsInv(s: Sys, a0: int, a1: int)
    requires Inv(s) && s.running != 0
    ensures Inv(UserRuns(s, a0, a1))
  {
    RegistersInv(s, UserRuns(s, a0, a1));
  }

  /** Registers and status words do not matter to the invariant. */
  lemma RegistersInv(s: Sys, s': Sys)
    requires Inv(s) && s'.tasks.Keys == s.tasks.Keys
    requires s' == s.(tasks := s'.tasks)
    requires forall p :: p in s.tasks ==>
      s'.tasks[p] == s.tasks[p].(a0 := s'.tasks[p].a0, a1 := s'.tasks[p].a1, shared := s'.tasks[p].shared)
    ensures Inv(s')
  {
    assert Listed(s') && Tree(s');
    assert Queued(s') && OneRunning(s');
    assert Channels(s') && NoLostWakeup(s');
  }

  lemma ForkInv(s: Sys, created: bool)
    requires Inv(s) && s.running != 0
    ensures Inv(Fork(s, created))
  {
    if created {
      ForkTree(s);
      ForkListed(s);
      ForkQueue(s);
    } else {
      RegistersInv(s, Fork(s, created));
    }
  }

  lemma ForkTree(s: Sys)
    requires Inv(s) && s.running != 0
    ensures Tree(Fork(s, true))
  {}

  lemma ForkListed(s: Sys)
    requires Inv(s) && s.running != 0
    ensures Listed(Fork(s, true))
  {
    LaterPid(s.order, s.nextPid);
  }

  lemma ForkQueue(s: Sys)
    requires Inv(s) && s.running != 0
    ensures var s' := Fork(s, true); Queued(s') && OneRunning(s') && Channels(s') && NoLostWakeup(s')
  {
    assert s.nextPid !in s.tasks;
    QueueTail(s.queue, s.nextPid);
  }

  /** What `sleep` may be called with. */
  ghost predicate MaySleep(s: Sys, channel: int) {
    && Inv(s) && s.running != 0
    && (channel == s.running ==> NoZombieChildren(s.tasks, s.running))
    && (channel != s.running ==> IsChild(s.tasks, s.running, channel) && s.tasks[channel].state != Zombie)
  }

  lemma AsleepShape(s: Sys, channel: int)
    requires MaySleep(s, channel)
    ensures var s' := Asleep(s, channel); Listed(s') && Tree(s')
  {}

  lemma AsleepQueue(s: Sys, channel: int)
    requires MaySleep(s, channel)
    ensures var s' := Asleep(s, channel); Queued(s') && OneRunning(s') && Channels(s') && NoLostWakeup(s')
  {}

  lemma SleepInv(s: Sys, channel: int, statusPtr: int)
    requires MaySleep(s, channel)
    ensures Inv(Sleep(s, channel, statusPtr))
  {
    var s1 := Asleep(s, channel);
    AsleepShape(s, channel);
    AsleepQueue(s, channel);
    if s.queue != [] {
      SwitchInv(s1);
    } else {
      RegistersInv(s1, Sleep(s, channel, statusPtr));
    }
  }

  lemma ReapShape(s: Sys, z: int, statusPtr: int)
    requires Inv(s) && s.running != 0 && IsZombieChild(s.tasks, s.running, z)
    ensures var s' := Reap(s, z, statusPtr); Listed(s') && Tree(s')
  {}

  lemma ReapQueue(s: Sys, z: int, statusPtr: int)
    requires Inv(s) && s.running != 0 && IsZombieChild(s.tasks, s.running, z)
    ensures var s' := Reap(s, z, statusPtr); Queued(s') && OneRunning(s') && Channels(s') && NoLostWakeup(s')
  {}

  lemma ReapInv(s: Sys, z: int, statusPtr: int)
    requires Inv(s) && s.running != 0 && IsZombieChild(s.tasks, s.running, z)
    ensures Inv(Reap(s, z, statusPtr))
  {
    ReapShape(s, z, statusPtr);
    ReapQueue(s, z, statusPtr);
  }

  lemma NoZombieChild(s: Sys, t: int)
    requires Inv(s) && ZombieChild(s.tasks, s.order, t) == 0
    ensures NoZombieChildren(s.tasks, t)
  {}

  lemma AnyChildInv(s: Sys, statusPtr: int)
    requires Inv(s) && s.running != 0
    ensures Inv(AnyChild(s, statusPtr))
  {
    var t := s.running;
    var z := ZombieChild(s.tasks, s.order, t);
    if z != 0 {
      ReapInv(s, z, statusPtr);
    } else if HasAliveChild(s.tasks, s.order, t) {
      NoZombieChild(s, t);
      SleepInv(s, t, statusPtr);
    } else {
      RegistersInv(s, Refuse(s));
    }
  }

  lemma WaitInv(s: Sys)
    requires Inv(s) && s.running != 0
    ensures Inv(Wait(s))
  {
    AnyChildInv(s, s.tasks[s.running].a0);
  }

  lemma WaitPidInv(s: Sys)
    requires Inv(s) && s.running != 0
    ensures Inv(WaitPid(s))
  {
    var me := s.tasks[s.running];
    if me.a0 == -1 {
      AnyChildInv(s, me.a1);
    } else {
      var c := ChildWithPid(s.tasks, s.running, me.a0);
      if c != 0 {
        SleepInv(s, c, me.a1);
      } else {
        RegistersInv(s, Refuse(s));
      }
    }
  }

  // ----- Exit -----

  /** What an exit does to every task: the children of the exiting task go to init. */
  lemma LeftTasks(s: Sys, status: int)
    requires Inv(s) && s.running != 0 && s.running != INIT
    ensures var t, s' := s.running, Left(s, status);
      && s'.tasks.Keys == s.tasks.Keys
      && s'.tasks[t] == s.tasks[t].(state := Zombie, exitStatus := status)
      && forall p :: p in s.tasks && p != t ==>
        s'.tasks[p] == if s.tasks[p].parent == t then s.tasks[p].(parent := INIT) else s.tasks[p]
  {}

  lemma LeftTree(s: Sys, status: int)
    requires Inv(s) && s.running != 0 && s.running != INIT
    ensures Listed(Left(s, status)) && Tree(Left(s, status))
  {
    LeftTasks(s, status);
    var t, s' := s.running, Left(s, status);
    forall p | p in s'.tasks && p != INIT
      ensures INIT <= s'.tasks[p].parent < p && s'.tasks[p].parent in s'.tasks && Live(s'.tasks[s'.tasks[p].parent])
    {
      assert INIT <= s.tasks[p].parent < p;
    }
  }

  lemma LeftQueue(s: Sys, status: int)
    requires Inv(s) && s.running != 0 && s.running != INIT
    ensures var s' := Left(s, status); Queued(s') && Channels(s') && NobodyRuns(s')
  {
    LeftTasks(s, status);
  }

  /** After an exit, the only zombie whose parent may sleep on it is the task that left. */
  lemma LeftWaits(s: Sys, status: int, z: int)
    requires Inv(s) && s.running != 0 && s.running != INIT
    requires z in s.tasks && z != s.running && Left(s, status).tasks[z].state == Zombie
    ensures var tasks := Left(s, status).tasks; var p := tasks[z].parent;
      && p in tasks
      && (tasks[p].state == Sleeping ==> tasks[p].channel != z && (p != INIT ==> tasks[p].channel != p))
  {}

  lemma ExitedHandover(s: Sys, status: int)
    requires Inv(s) && s.running != 0 && s.running != INIT
    ensures Handover(Exited(s, status))
  {
    LeftTree(s, status);
    LeftQueue(s, status);
    ExitedWaits(s, status);
    if Awaits(Left(s, status).tasks, Left(s, status).tasks[s.running].parent, s.running) {
      WokenRest(s, status);
    }
  }

  lemma ExitedWaits(s: Sys, status: int)
    requires Inv(s) && s.running != 0 && s.running != INIT
    ensures NoLostWakeup(Exited(s, status))
  {
    var s' := Exited(s, status);
    forall z | z in s'.tasks && s'.tasks[z].state == Zombie
      ensures Unawaited(s'.tasks, z)
    {
      ExitedZombie(s, status, z);
    }
  }

  /** The parent of this zombie does not sleep on it nor, init apart, on any child. */
  ghost predicate Unawaited(tasks: map<int, Task>, z: int) {
    z in tasks &&
    var p := tasks[z].parent;
    p in tasks && tasks[p].state == Sleeping ==> tasks[p].channel != z && (p != INIT ==> tasks[p].channel != p)
  }

  lemma ExitedZombie(s: Sys, status: int, z: int)
    requires Inv(s) && s.running != 0 && s.running != INIT
    requires z in Exited(s, status).tasks && Exited(s, status).tasks[z].state == Zombie
    ensures Unawaited(Exited(s, status).tasks, z)
  {
    LeftTasks(s, status);
    LeftTree(s, status);
    if z != s.running { LeftWaits(s, status, z); }
  }

  lemma WokenRest(s: Sys, status: int)
    requires Inv(s) && s.running != 0 && s.running != INIT
    requires Awaits(Left(s, status).tasks, Left(s, status).tasks[s.running].parent, s.running)
    ensures var s' := Exited(s, status); Listed(s') && Tree(s') && Queued(s') && Channels(s') && NobodyRuns(s')
  {
    LeftTree(s, status);
    LeftQueue(s, status);
    LeftTasks(s, status);
    var s1 := Left(s, status);
    var t := s.running;
    WokenTree(s1, t);
    WokenQueue(s1, t);
  }

  lemma WokenTree(s: Sys, t: int)
    requires Listed(s) && Tree(s) && t in s.tasks && s.tasks[t].state == Zombie && Awaits(s.tasks, s.tasks[t].parent, t)
    ensures Listed(Wake(s, t, s.tasks[t].parent)) && Tree(Wake(s, t, s.tasks[t].parent))
  {}

  lemma WokenQueue(s: Sys, t: int)
    requires Queued(s) && Channels(s) && NobodyRuns(s)
    requires t in s.tasks && s.tasks[t].state == Zombie && Awaits(s.tasks, s.tasks[t].parent, t)
    ensures var s' := Wake(s, t, s.tasks[t].parent); Queued(s') && Channels(s') && NobodyRuns(s')
  {
    var parent := s.tasks[t].parent;
    assert parent !in Elems(s.queue);
    QueueTail(s.queue, parent);
  }

  lemma ExitInv(s: Sys, status: int)
    requires Inv(s) && s.running != 0
    ensures Exit(s, status).Continue? ==> Inv(Exit(s, status).sys)
  {
    if s.running != INIT && Exited(s, status).queue != [] {
      ExitedHandover(s, status);
      SwitchInv(Exited(s, status));
    }
  }

  /** Every step keeps the invariant, unless the kernel panics. */
  lemma StepInv(s: Sys, e: Event)
    requires Inv(s)
    ensures Step(s, e).Continue? ==> Inv(Step(s, e).sys)
  {
    if s.running == 0 {
      ScheduleInv(s);
    } else {
      match e
      case Scheduler =>
      case Timer => YieldInv(s);
      case User(a0, a1) => UserRunsInv(s, a0, a1);
      case ForkCall(created) => ForkInv(s, created);
      case ExitCall(status) => ExitInv(s, status);
      case WaitCall => WaitInv(s);
      case WaitPidCall => WaitPidInv(s);
    }
  }
}
