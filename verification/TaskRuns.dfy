/** What holds over every run of the kernel, from `init_scheduler` on. */
module TaskRuns {
  import opened Tasks
  import opened TaskInvariants

  /** The state after a run, unless the kernel panicked on the way. */
  ghost function Run(s: Sys, events: seq<Event>): (r: Outcome)
    requires Inv(s)
    ensures r.Continue? ==> Inv(r.sys)
    decreases |events|
  {
    if events == [] then Continue(s)
    else
      StepInv(s, events[0]);
      match Step(s, events[0])
      case Panic => Panic
      case Continue(s') => Run(s', events[1..])
  }

  /** Run by run: the queue holds exactly the runnable tasks, one task runs at most, parents
      form a tree of live tasks, and no wakeup is lost. */
  lemma EveryRun(events: seq<Event>)
    ensures Inv(Boot())
    ensures Run(Boot(), events).Continue? ==> Inv(Run(Boot(), events).sys)
  {}

  lemma {:induction false} ElemsIff(s: seq<int>, p: int)
    ensures p in Elems(s) <==> exists i :: 0 <= i < |s| && s[i] == p
  {
    if s != [] {
      ElemsIff(s[1..], p);
      if p in Elems(s[1..]) {
        var i :| 0 <= i < |s[1..]| && s[1..][i] == p;
        assert s[i + 1] == p;
      }
      if i :| 0 < i < |s| && s[i] == p {
        assert s[1..][i - 1] == p;
      }
    }
  }

  lemma {:induction false} NoDupIff(s: seq<int>)
    ensures NoDup(s) ==> forall i, j :: 0 <= i < j < |s| ==> s[i] != s[j]
  {
    if NoDup(s) && s != [] {
      NoDupIff(s[1..]);
      forall i, j | 0 <= i < j < |s|
        ensures s[i] != s[j]
      {
        if i == 0 {
          InElems(s[1..], j - 1);
        } else {
          assert s[1..][i - 1] != s[1..][j - 1];
        }
      }
    }
  }

  /** The queue: who is on it, and how often. */
  lemma QueueIs(s: Sys)
    requires Inv(s)
    ensures forall p :: p in s.tasks ==>
      (s.tasks[p].state == Runnable <==> exists i :: 0 <= i < |s.queue| && s.queue[i] == p)
    ensures forall i, j :: 0 <= i < j < |s.queue| ==> s.queue[i] != s.queue[j]
    ensures forall p, q ::
      p in s.tasks && q in s.tasks && s.tasks[p].state == Running && s.tasks[q].state == Running ==> p == q
  {
    NoDupIff(s.queue);
    forall p | p in s.tasks
      ensures s.tasks[p].state == Runnable <==> exists i :: 0 <= i < |s.queue| && s.queue[i] == p
    {
      ElemsIff(s.queue, p);
    }
  }

  /** The tree: every task but init has a parent that was made before it and has not exited. */
  lemma ParentsLive(s: Sys, p: int)
    requires Inv(s) && p in s.tasks && p != 1
    ensures var parent := s.tasks[p].parent;
      1 <= parent < p && parent in s.tasks && s.tasks[parent].state != Zombie && s.tasks[parent].state != Dead
  {}

  ghost predicate Reachable(s: Sys) {
    exists events :: Inv(Boot()) && Run(Boot(), events) == Continue(s)
  }

  lemma {:induction false} RunSnoc(s: Sys, events: seq<Event>, e: Event)
    requires Inv(s) && Run(s, events).Continue?
    ensures Run(s, events + [e]) == Step(Run(s, events).sys, e)
    decreases |events|
  {
    StepInv(s, (events + [e])[0]);
    if events == [] {
      assert (events + [e])[1..] == [];
    } else {
      assert (events + [e])[1..] == events[1..] + [e];
      RunSnoc(Step(s, events[0]).sys, events[1..], e);
    }
  }

  lemma ReachStep(s: Sys, e: Event)
    requires Reachable(s)
    ensures Inv(s)
    ensures Step(s, e).Continue? ==> Reachable(Step(s, e).sys)
  {
    BootInv();
    var events :| Run(Boot(), events) == Continue(s);
    RunSnoc(Boot(), events, e);
  }

  /** What the invariant means for a task that waits, in the words of the design. */
  lemma NoWakeupLost(s: Sys, p: int)
    requires Inv(s) && p in s.tasks && s.tasks[p].state == Sleeping
    ensures s.tasks[p].channel == p && p != INIT ==> forall c :: !IsZombieChild(s.tasks, p, c)
    ensures s.tasks[p].channel != p ==>
      IsChild(s.tasks, p, s.tasks[p].channel) && s.tasks[s.tasks[p].channel].state != Zombie
  {}

  /** `next_task_to_run` finds a runnable task at the head of the queue: its loop over dead
      entries never runs, and neither does the panic in `yield`. */
  lemma HeadIsRunnable(s: Sys)
    requires Inv(s)
    ensures Requeue(s).queue == [] <==> s.queue == [] && (s.running == 0 || s.tasks[s.running].state != Running)
    ensures Requeue(s).queue != [] ==>
      var next := Requeue(s).queue[0];
      next in Requeue(s).tasks && Requeue(s).tasks[next].state == Runnable
  {}

  // ----- When the kernel panics -----

  /** Exit panics exactly when init exits, or when nobody is left to run: the queue is empty
      and the parent does not wait for this exit. */
  lemma ExitPanicsIff(s: Sys, status: int)
    requires Inv(s) && s.running != 0
    ensures Exit(s, status).Panic? <==>
      s.running == INIT || (s.queue == [] && !Awaits(s.tasks, s.tasks[s.running].parent, s.running))
  {}

  /** Once a task runs, some task runs from then on: a second round of the scheduler loop would find it and panic. */
  lemma {:induction false} NeverIdle(s: Sys, events: seq<Event>, i: nat)
    requires Inv(s) && s.running != 0 && Run(s, events).Continue? && i < |events|
    ensures Run(s, events).sys.running != 0 && !events[i].Scheduler?
    decreases |events|
  {
    hide Inv, Step;
    StepInv(s, events[0]);
    CpuInUse(s, events[0]);
    if |events| > 1 {
      NeverIdle(Step(s, events[0]).sys, events[1..], if i == 0 then 0 else i - 1);
    }
  }

  lemma CpuInUse(s: Sys, e: Event)
    requires Inv(s) && s.running != 0 && Step(s, e).Continue?
    ensures Step(s, e).sys.running != 0 && !e.Scheduler?
  {
    assert 0 !in s.tasks;
    if s.queue != [] { InElems(s.queue, 0); }
    if e.ExitCall? {
      ExitedHandover(s, e.status);
    }
  }

  // ----- What a step does to the tasks that do not run -----

  /** The step takes the zombie `z` from its parent, the current task, which gets its pid. */
  ghost predicate Reaps(s: Sys, e: Event, s': Sys, z: int) {
    && (e.WaitCall? || e.WaitPidCall?)
    && IsZombieChild(s.tasks, s.running, z)
    && s'.running == s.running && s.running in s'.tasks && s'.tasks[s.running].a0 == z
    && (e.WaitPidCall? ==> s.running in s.tasks && s.tasks[s.running].a0 == -1)
  }

  /** Apart from an exit, a step changes no other task, except that the head of the queue may
      start to run and a zombie child of the current task may be reaped. */
  ghost predicate OnlyState(s: Sys, e: Event, s': Sys, p: int) {
    && p in s.tasks && p in s'.tasks
    && s'.tasks[p] == s.tasks[p].(state := s'.tasks[p].state)
    && (|| s'.tasks[p].state == s.tasks[p].state
        || (s.tasks[p].state == Runnable && s'.tasks[p].state == Running)
        || (s.tasks[p].state == Zombie && s'.tasks[p].state == Dead && Reaps(s, e, s', p)))
  }

  lemma SwitchOthers(s: Sys, p: int)
    requires Handover(s) && s.queue != [] && p in s.tasks
    ensures s.queue[0] in s.tasks
    ensures var s' := Switch(s);
      && p in s'.tasks
      && s'.tasks[p] == (if p == s.queue[0] then s.tasks[p].(state := Running) else s.tasks[p])
      && (p == s.queue[0] ==> s.tasks[p].state == Runnable)
  {}

  lemma OthersInSleep(s: Sys, channel: int, statusPtr: int, e: Event, p: int)
    requires MaySleep(s, channel) && p in s.tasks && p != s.running
    ensures OnlyState(s, e, Sleep(s, channel, statusPtr), p)
  {}

  lemma OthersInWait(s: Sys, e: Event, p: int)
    requires Inv(s) && s.running != 0 && p in s.tasks && p != s.running
    requires e.WaitCall? || e.WaitPidCall?
    ensures OnlyState(s, e, Step(s, e).sys, p)
  {
    var t := s.running;
    var c := SleepsOn(s, e);
    if c != 0 {
      if c == t { NoZombieChild(s, t); }
      OthersInSleep(s, c, if e.WaitCall? then s.tasks[t].a0 else s.tasks[t].a1, e, p);
    }
  }

  lemma Others(s: Sys, e: Event, p: int)
    requires Inv(s) && p in s.tasks && (p != s.running || s.running == 0) && !e.ExitCall? && Step(s, e).Continue?
    ensures OnlyState(s, e, Step(s, e).sys, p)
  {
    assert 0 !in s.tasks;
    match e
    case Scheduler =>
      if s.running == 0 && s.queue != [] { InElems(s.queue, 0); }
    case Timer =>
      if s.running != 0 && s.queue != [] {
        RequeueHandover(s);
        SwitchOthers(Requeue(s), p);
      }
    case User(_, _) =>
    case ForkCall(_) =>
    case ExitCall(_) =>
    case WaitCall => if s.running != 0 { OthersInWait(s, e, p); }
    case WaitPidCall => if s.running != 0 { OthersInWait(s, e, p); }
  }

  /** An exit changes another task only as its new parent or as the waiting parent it wakes. */
  lemma OthersInExit(s: Sys, status: int, p: int)
    requires Inv(s) && s.running != 0 && p in s.tasks && p != s.running && Exit(s, status).Continue?
    requires !Awaits(s.tasks, p, s.running) || p != s.tasks[s.running].parent
    ensures var s' := Exit(s, status).sys;
      && p in s'.tasks
      && s'.tasks[p] == s.tasks[p].(state := s'.tasks[p].state, parent := s'.tasks[p].parent)
      && (s'.tasks[p].state == s.tasks[p].state || (s.tasks[p].state == Runnable && s'.tasks[p].state == Running))
  {
    LeftTasks(s, status);
    ExitedHandover(s, status);
    SwitchOthers(Exited(s, status), p);
  }

  // ----- Bounded waiting -----

  /** The channel a waiting call sleeps on; 0 when it returns at once. */
  function SleepsOn(s: Sys, e: Event): int
    requires s.running in s.tasks
  {
    var t := s.running;
    match e
    case WaitCall => if ZombieChild(s.tasks, s.order, t) == 0 && HasAliveChild(s.tasks, s.order, t) then t else 0
    case WaitPidCall =>
      if s.tasks[t].a0 == -1 then
        if ZombieChild(s.tasks, s.order, t) == 0 && HasAliveChild(s.tasks, s.order, t) then t else 0
      else ChildWithPid(s.tasks, t, s.tasks[t].a0)
    case _ => 0
  }

  /** Does the step hand the CPU to the head of the queue? */
  predicate Switches(s: Sys, e: Event) {
    if e.Scheduler? then s.running == 0 && s.queue != []
    else
      && s.running in s.tasks
      && match e
         case Timer => s.queue != []
         case ExitCall(_) => true
         case WaitCall => s.queue != [] && SleepsOn(s, e) != 0
         case WaitPidCall => s.queue != [] && SleepsOn(s, e) != 0
         case _ => false
  }

  /** Nobody overtakes: a switch moves every queued task one place forward, and any other
      step leaves it where it is. */
  lemma OnePlace(s: Sys, e: Event, k: nat)
    requires Inv(s) && k < |s.queue| && Step(s, e).Continue?
    ensures var s' := Step(s, e).sys; var t := s.queue[k];
      && (!Switches(s, e) ==> k < |s'.queue| && s'.queue[k] == t)
      && (Switches(s, e) && k > 0 ==> k - 1 < |s'.queue| && s'.queue[k - 1] == t)
      && (Switches(s, e) && k == 0 ==> s'.running == t && t in s'.tasks && s'.tasks[t].state == Running)
  {
    assert 0 !in s.tasks;
    if e.ExitCall? && s.running != 0 && s.running != INIT {
      var s1 := Exited(s, e.status);
      assert s1.queue[..|s.queue|] == s.queue;
    }
  }

  ghost function CountSwitches(s: Sys, events: seq<Event>): nat
    requires Inv(s)
    decreases |events|
  {
    if events == [] then 0
    else
      StepInv(s, events[0]);
      match Step(s, events[0])
      case Panic => 0
      case Continue(s') => (if Switches(s, events[0]) then 1 else 0) + CountSwitches(s', events[1..])
  }

  /** A task with `k` tasks ahead of it keeps its order, and its pending wait result, until
      `k` switches have happened. */
  lemma {:induction false} Waiting(s: Sys, events: seq<Event>, k: nat)
    requires Inv(s) && k < |s.queue| && Run(s, events).Continue? && CountSwitches(s, events) <= k
    ensures var s', left, t := Run(s, events).sys, k - CountSwitches(s, events), s.queue[k];
      && left < |s'.queue| && s'.queue[left] == t
      && t in s.tasks && t in s'.tasks
      && s'.tasks[t].a0 == s.tasks[t].a0 && s'.tasks[t].a1 == s.tasks[t].a1
    decreases |events|
  {
    InElems(s.queue, k);
    if events != [] {
      OnePlace(s, events[0], k);
      StepInv(s, events[0]);
      PendingKept(s, events[0], s.queue[k]);
      var s1 := Step(s, events[0]).sys;
      Waiting(s1, events[1..], if Switches(s, events[0]) then k - 1 else k);
    }
  }

  /** Bounded waiting: the switch after those `k` runs the task, with its result intact. */
  lemma BoundedWaiting(s: Sys, events: seq<Event>, e: Event, k: nat)
    requires Inv(s) && k < |s.queue| && Run(s, events).Continue? && CountSwitches(s, events) == k
    requires var s1 := Run(s, events).sys; Switches(s1, e) && Step(s1, e).Continue?
    ensures var s', t := Step(Run(s, events).sys, e).sys, s.queue[k];
      && s'.running == t && t in s.tasks && t in s'.tasks && s'.tasks[t].state == Running
      && s'.tasks[t].a0 == s.tasks[t].a0 && s'.tasks[t].a1 == s.tasks[t].a1
  {
    Waiting(s, events, k);
    var s1 := Run(s, events).sys;
    OnePlace(s1, e, 0);
    InElems(s1.queue, 0);
    PendingKept(s1, e, s.queue[k]);
  }

  /** The registers of a queued task are safe: no step, and in particular no exit of another
      child, writes them before the task runs. */
  lemma PendingKept(s: Sys, e: Event, p: int)
    requires Inv(s) && p in Elems(s.queue) && Step(s, e).Continue?
    ensures var s' := Step(s, e).sys;
      && p in s.tasks && p in s'.tasks
      && s'.tasks[p].a0 == s.tasks[p].a0 && s'.tasks[p].a1 == s.tasks[p].a1
  {
    assert s.tasks[p].state == Runnable;
    assert 0 !in s.tasks;
    if e.ExitCall? && s.running != 0 {
      OthersInExit(s, e.status, p);
    } else if !e.ExitCall? {
      Others(s, e, p);
    }
  }

  /** `fork` without memory. */
  lemma ForkRefused(s: Sys)
    requires Inv(s) && s.running != 0
    ensures var s' := Fork(s, false);
      && s'.tasks.Keys == s.tasks.Keys && s'.tasks[s.running].a0 == -1 && s'.queue == s.queue && s'.running == s.running
      && forall p :: p in s.tasks && p != s.running ==> s'.tasks[p] == s.tasks[p]
  {}

  /** `fork` returns twice: a new pid in the parent, 0 in the child, which is last in the queue. */
  lemma ForkReturnsTwice(s: Sys)
    requires Inv(s) && s.running != 0
    ensures var s', parent, child := Fork(s, true), s.running, s.nextPid;
      && child !in s.tasks && s'.tasks.Keys == s.tasks.Keys + {child}
      && s'.tasks[child].a1 == s.tasks[parent].a1 == s'.tasks[parent].a1
      && s'.tasks[parent].a0 == child && s'.tasks[child].a0 == 0
      && s'.tasks[child].parent == parent && s'.tasks[child].state == Runnable && s'.queue == s.queue + [child]
      && forall p :: p in s.tasks && p != parent ==> s'.tasks[p] == s.tasks[p]
  {}

  // ----- Zombies are handed over once -----

  /** Dead is final, and a zombie can only die. */
  lemma DeathIsFinal(s: Sys, e: Event, p: int)
    requires Inv(s) && p in s.tasks && Step(s, e).Continue?
    ensures p in Step(s, e).sys.tasks
    ensures s.tasks[p].state == Dead ==> Step(s, e).sys.tasks[p].state == Dead
    ensures s.tasks[p].state == Zombie ==> !Live(Step(s, e).sys.tasks[p])
  {
    if e.ExitCall? && s.running != 0 && !Live(s.tasks[p]) {
      OthersInExit(s, e.status, p);
    } else if e.ExitCall? && s.running != 0 {
      LeftTasks(s, e.status);
    } else if !e.ExitCall? && p != s.running {
      Others(s, e, p);
    } else if !e.ExitCall? {
      StepKeepsTasks(s, e);
    }
  }

  lemma StepKeepsTasks(s: Sys, e: Event)
    requires Inv(s) && !e.ExitCall? && Step(s, e).Continue?
    ensures s.tasks.Keys <= Step(s, e).sys.tasks.Keys
  {
    if s.queue != [] { InElems(s.queue, 0); }
  }

  /** A zombie dies only by a wait of its current parent, which gets its pid. */
  lemma ReapedByParent(s: Sys, e: Event, z: int)
    requires Inv(s) && z in s.tasks && s.tasks[z].state == Zombie && Step(s, e).Continue?
    requires z in Step(s, e).sys.tasks && Step(s, e).sys.tasks[z].state == Dead
    ensures (e.WaitCall? || (e.WaitPidCall? && s.tasks[s.running].a0 == -1))
    ensures s.running == s.tasks[z].parent && s.running in s.tasks
    ensures Step(s, e).sys.running == s.running && Step(s, e).sys.tasks[s.running].a0 == z
    ensures (if e.WaitCall? then s.tasks[s.running].a0 else s.tasks[s.running].a1) != 0 ==>
      Step(s, e).sys.tasks[s.running].shared == s.tasks[z].exitStatus
  {
    if e.ExitCall? && s.running != 0 {
      OthersInExit(s, e.status, z);
    } else if !e.ExitCall? {
      Others(s, e, z);
    }
  }

  lemma {:induction false} FirstIsOldest(tasks: map<int, Task>, order: seq<int>, t: int, c: int)
    requires Increasing(order) && c in Elems(order) && c != 0 && IsZombieChild(tasks, t, c)
    ensures ZombieChild(tasks, order, t) != 0 && ZombieChild(tasks, order, t) <= c
  {
    if !(order[0] != 0 && IsZombieChild(tasks, t, order[0])) {
      FirstIsOldest(tasks, order[1..], t, c);
    }
  }

  /** A call that waits for any child reaps the oldest zombie child, if there is one: the caller gets its pid and, if
      it asked for it, its status; the other zombie children stay zombies. */
  lemma OldestIsReaped(s: Sys, e: Event, c: int)
    requires Inv(s) && s.running != 0 && (e.WaitCall? || (e.WaitPidCall? && s.tasks[s.running].a0 == -1))
    requires IsZombieChild(s.tasks, s.running, c)
    ensures Step(s, e).Continue? && s.running in Step(s, e).sys.tasks && c in Step(s, e).sys.tasks
    ensures var t, s' := s.running, Step(s, e).sys; var z := s'.tasks[t].a0;
      && IsZombieChild(s.tasks, t, z) && z <= c && s'.running == t && z in s'.tasks && s'.tasks[z].state == Dead
      && (c != z ==> s'.tasks[c] == s.tasks[c])
      && ((if e.WaitCall? then s.tasks[t].a0 else s.tasks[t].a1) != 0 ==> s'.tasks[t].shared == s.tasks[z].exitStatus)
  {
    FirstIsOldest(s.tasks, s.order, s.running, c);
  }

  /** A task that exits while its parent waits for it is dead at once, and the parent becomes
      runnable with the pid and the status. */
  lemma ExitWakesParent(s: Sys, status: int)
    requires Inv(s) && s.running != 0 && Exit(s, status).Continue?
    ensures var t, s' := s.running, Exit(s, status).sys; var parent := s.tasks[t].parent;
      && t in s'.tasks && parent in s'.tasks
      && s'.tasks[t].exitStatus == status && parent in s.tasks
      && (s.tasks[parent].state == Sleeping && (s.tasks[parent].channel == parent || s.tasks[parent].channel == t) <==>
           s'.tasks[t].state == Dead)
      && (Awaits(s.tasks, parent, t) ==>
           s'.tasks[t].state == Dead && s'.tasks[parent].a0 == t && s'.tasks[parent].a1 == status &&
           (s'.tasks[parent].state == Runnable || s'.running == parent))
      && (!Awaits(s.tasks, parent, t) ==> s'.tasks[t].state == Zombie)
  {}

  /** Once reaped, never again: a dead task stays dead over every run. */
  lemma {:induction false} DeadForever(s: Sys, events: seq<Event>, p: int)
    requires Inv(s) && p in s.tasks && s.tasks[p].state == Dead && Run(s, events).Continue?
    ensures p in Run(s, events).sys.tasks && Run(s, events).sys.tasks[p].state == Dead
    decreases |events|
  {
    if events != [] {
      DeathIsFinal(s, events[0], p);
      StepInv(s, events[0]);
      DeadForever(Step(s, events[0]).sys, events[1..], p);
    }
  }
}
