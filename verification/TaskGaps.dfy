/** Where the process code does less than its documentation says, and exactly when. */
module TaskGaps {
  import opened Tasks
  import opened TaskInvariants
  import opened TaskRuns

  // ----- wait: "-1 if there are no child of this program" -----

  /** A caller whose children have all been reaped is refused if and only if it never had any: `has_alive_child`
      counts dead children. Otherwise it goes to sleep, if another task can run; if not, the call returns the
      pointer that it was called with. */
  lemma WaitRefusesIff(s: Sys)
    requires Inv(s) && s.running != 0
    requires forall c :: IsChild(s.tasks, s.running, c) ==> s.tasks[c].state == Dead
    ensures (forall c :: !IsChild(s.tasks, s.running, c)) ==> Wait(s) == Refuse(s)
    ensures s.running in Wait(s).tasks
    ensures (forall c :: !IsChild(s.tasks, s.running, c)) ==>
      Wait(s).tasks[s.running].a0 == -1 && Wait(s).running == s.running
    ensures (exists c :: IsChild(s.tasks, s.running, c)) ==>
      Wait(s).tasks[s.running].state == Sleeping && Wait(s).tasks[s.running].channel == s.running
    ensures (exists c :: IsChild(s.tasks, s.running, c)) ==>
      && Wait(s).tasks[s.running].a0 == s.tasks[s.running].a0
      && (Wait(s).running == s.running <==> s.queue == [])
  {
    if s.queue != [] { InElems(s.queue, 0); }
    if c :| IsChild(s.tasks, s.running, c) {
      assert c in Elems(s.order);
    }
  }

  /** A task that sleeps for any child, when all its children are dead. */
  ghost predicate Bereft(s: Sys, p: int) {
    && p in s.tasks && p != s.running && s.tasks[p].state == Sleeping && s.tasks[p].channel == p
    && forall c :: IsChild(s.tasks, p, c) ==> s.tasks[c].state == Dead
  }

  lemma WaitBereftIff(s: Sys)
    requires Inv(s) && s.running != 0
    ensures Bereft(Wait(s), s.running) <==>
      && (exists c :: IsChild(s.tasks, s.running, c))
      && (forall c :: IsChild(s.tasks, s.running, c) ==> s.tasks[c].state == Dead)
      && s.queue != []
  {
    if Bereft(Wait(s), s.running) {
      forall c | IsChild(s.tasks, s.running, c)
        ensures s.tasks[c].state == Dead
      {
        StillChild(s, c);
      }
    } else if forall c :: IsChild(s.tasks, s.running, c) ==> s.tasks[c].state == Dead {
      WaitRefusesIff(s);
      forall c | IsChild(Wait(s).tasks, s.running, c)
        ensures Wait(s).tasks[c].state == Dead
      {
        WasChild(s, c);
      }
    }
  }

  lemma StillChild(s: Sys, c: int)
    requires Inv(s) && s.running != 0 && IsChild(s.tasks, s.running, c) && Wait(s).running != s.running
    ensures IsChild(Wait(s).tasks, s.running, c)
    ensures Wait(s).tasks[c].state == Dead ==> s.tasks[c].state == Dead
  {
    Others(s, WaitCall, c);
  }

  lemma WasChild(s: Sys, c: int)
    requires Inv(s) && s.running != 0 && IsChild(Wait(s).tasks, s.running, c)
    ensures IsChild(s.tasks, s.running, c)
    ensures s.tasks[c].state == Dead ==> Wait(s).tasks[c].state == Dead
  {
    if s.queue != [] { InElems(s.queue, 0); }
  }

  /** Init is never bereft: while it has no child left but dead ones, nobody else can run. */
  lemma OnlyInitLeft(s: Sys)
    requires Inv(s) && forall c :: IsChild(s.tasks, INIT, c) ==> s.tasks[c].state == Dead
    ensures forall p :: p in s.tasks && Live(s.tasks[p]) ==> p == INIT
    ensures s.running == INIT ==> s.queue == []
  {
    forall p | p in s.tasks && Live(s.tasks[p])
      ensures p == INIT
    {
      if p != INIT { ChildOfInit(s, p); }
    }
    if s.running == INIT && s.queue != [] {
      QueueHead(s);
    }
  }

  lemma QueueHead(s: Sys)
    requires Inv(s) && s.queue != []
    ensures s.queue[0] in s.tasks && s.tasks[s.queue[0]].state == Runnable && s.queue[0] != s.running
  {
    InElems(s.queue, 0);
    var head := s.queue[0];
    assert head in Elems(s.queue) && s.tasks[head].state == Runnable;
  }

  /** Every live task but init descends from a live child of init. */
  lemma {:induction false} ChildOfInit(s: Sys, p: int)
    requires Inv(s) && p in s.tasks && p != INIT && Live(s.tasks[p])
    ensures exists c :: IsChild(s.tasks, INIT, c) && Live(s.tasks[c])
    decreases p
  {
    var parent := s.tasks[p].parent;
    if parent == INIT {
      assert IsChild(s.tasks, INIT, p);
    } else {
      ChildOfInit(s, parent);
    }
  }

  lemma StaysBereft(s: Sys, e: Event, p: int)
    requires Inv(s) && Bereft(s, p) && p != INIT && Step(s, e).Continue?
    ensures Bereft(Step(s, e).sys, p)
  {
    hide Inv, Step, Bereft;
    SleepsOnBereft(s, e, p);
    forall c | IsChild(Step(s, e).sys.tasks, p, c)
      ensures Step(s, e).sys.tasks[c].state == Dead
    {
      NoNewChild(s, e, p, c);
    }
    BereftIf(Step(s, e).sys, p);
  }

  lemma BereftIf(s: Sys, p: int)
    requires p in s.tasks && p != s.running && s.tasks[p].state == Sleeping && s.tasks[p].channel == p
    requires forall c :: IsChild(s.tasks, p, c) ==> s.tasks[c].state == Dead
    ensures Bereft(s, p)
  {}

  lemma SleepsOnBereft(s: Sys, e: Event, p: int)
    requires Inv(s) && Bereft(s, p) && Step(s, e).Continue?
    ensures var s' := Step(s, e).sys;
      p in s'.tasks && p != s'.running && s'.tasks[p].state == Sleeping && s'.tasks[p].channel == p
  {
    if e.ExitCall? && s.running != 0 {
      assert !IsChild(s.tasks, p, s.running);
      OthersInExit(s, e.status, p);
      ExitedHandover(s, e.status);
      InElems(Exited(s, e.status).queue, 0);
    } else if !e.ExitCall? {
      Others(s, e, p);
      StillElsewhere(s, e, p);
    }
  }

  /** A child of `p` was one before. */
  lemma NoNewChild(s: Sys, e: Event, p: int, c: int)
    requires Inv(s) && Bereft(s, p) && p != INIT && Step(s, e).Continue? && IsChild(Step(s, e).sys.tasks, p, c)
    ensures Step(s, e).sys.tasks[c].state == Dead
  {
    WhoseChild(s, e, c);
    assert IsChild(s.tasks, p, c);
    DeathIsFinal(s, e, c);
  }

  /** A step makes children of the running task and of init only. */
  lemma WhoseChild(s: Sys, e: Event, c: int)
    requires Inv(s) && Step(s, e).Continue? && c in Step(s, e).sys.tasks
    ensures var parent := Step(s, e).sys.tasks[c].parent;
      parent == INIT || parent == s.running || (c in s.tasks && parent == s.tasks[c].parent)
  {
    if e.ExitCall? && s.running != 0 {
      ExitParent(s, e.status, c);
    } else if c == s.running && s.running != 0 {
      OwnParent(s, e);
    } else if c in s.tasks && !e.ExitCall? {
      Others(s, e, c);
    } else if !e.ExitCall? {
      Newcomer(s, e, c);
    }
  }

  lemma ExitParent(s: Sys, status: int, c: int)
    requires Inv(s) && s.running != 0 && Exit(s, status).Continue? && c in Exit(s, status).sys.tasks
    ensures c in s.tasks
    ensures Exit(s, status).sys.tasks[c].parent == INIT || Exit(s, status).sys.tasks[c].parent == s.tasks[c].parent
  {
    hide Left, Reparented, Awaits, Handover;
    LeftTasks(s, status);
    ExitedHandover(s, status);
    SwitchedParent(Exited(s, status), c);
  }

  lemma SwitchedParent(s: Sys, c: int)
    requires s.queue != [] && s.queue[0] in s.tasks && c in Switch(s).tasks
    ensures c in s.tasks && Switch(s).tasks[c].parent == s.tasks[c].parent
  {}

  lemma OwnParent(s: Sys, e: Event)
    requires Inv(s) && s.running != 0 && Step(s, e).Continue? && !e.ExitCall?
    ensures s.running in Step(s, e).sys.tasks
    ensures Step(s, e).sys.tasks[s.running].parent == s.tasks[s.running].parent
  {
    if s.queue != [] { InElems(s.queue, 0); }
  }

  lemma Newcomer(s: Sys, e: Event, c: int)
    requires Inv(s) && Step(s, e).Continue? && !e.ExitCall? && c in Step(s, e).sys.tasks && c !in s.tasks
    ensures Step(s, e).sys.tasks[c].parent == s.running
  {
    if s.queue != [] { InElems(s.queue, 0); }
  }

  /** It sleeps for ever. */
  lemma {:induction false} BereftForever(s: Sys, events: seq<Event>, p: int)
    requires Inv(s) && Bereft(s, p) && p != INIT && Run(s, events).Continue?
    ensures Bereft(Run(s, events).sys, p)
    decreases |events|
  {
    if events != [] {
      StaysBereft(s, events[0], p);
      StepInv(s, events[0]);
      BereftForever(Step(s, events[0]).sys, events[1..], p);
    }
  }

  // ----- wait_pid: the child's pid if it has exited -----

  /** A zombie child is reported if and only if the caller asks for any child and it is the
      first one found; asking for it by pid is refused and leaves it a zombie. */
  lemma WaitPidReapsIff(s: Sys, z: int)
    requires Inv(s) && s.running != 0 && IsZombieChild(s.tasks, s.running, z)
    ensures WaitPid(s).tasks.Keys == s.tasks.Keys
    ensures WaitPid(s).tasks[z].state == Dead <==>
      s.tasks[s.running].a0 == -1 && z == ZombieChild(s.tasks, s.order, s.running)
    ensures s.tasks[s.running].a0 == z ==>
      WaitPid(s) == Refuse(s) && WaitPid(s).running == s.running && WaitPid(s).tasks[s.running].a0 == -1
  {
    assert z in Elems(s.order) && z != 0;
    assert z != s.running;
    Others(s, WaitPidCall, z);
    var c := SleepsOn(s, WaitPidCall);
    if c != 0 && s.queue != [] { InElems(s.queue, 0); }
  }

  /** Asking for a child that is not a zombie, reaped before or not, marks the caller as sleeping on it. It leaves the
      CPU if another task can run; if not, the call returns the pid that was asked for. */
  lemma WaitPidSleepsIff(s: Sys)
    requires Inv(s) && s.running != 0 && s.tasks[s.running].state == Running && s.tasks[s.running].a0 != -1
    ensures var c := s.tasks[s.running].a0; var s' := WaitPid(s);
      && s.running in s'.tasks
      && (s'.tasks[s.running].state == Sleeping && s'.tasks[s.running].channel == c <==>
            IsChild(s.tasks, s.running, c) && s.tasks[c].state != Zombie)
      && (s'.running != s.running <==> IsChild(s.tasks, s.running, c) && s.tasks[c].state != Zombie && s.queue != [])
      && (IsChild(s.tasks, s.running, c) && s.tasks[c].state != Zombie ==> s'.tasks[s.running].a0 == c)
  {
    if s.queue != [] { InElems(s.queue, 0); }
  }

  /** A task that sleeps on a dead child. */
  ghost predicate Stranded(s: Sys, p: int) {
    && p in s.tasks && p != s.running && s.tasks[p].state == Sleeping
    && s.tasks[p].channel != p && s.tasks[p].channel in s.tasks && s.tasks[s.tasks[p].channel].state == Dead
  }

  lemma WaitPidStrandedIff(s: Sys)
    requires Inv(s) && s.running != 0
    ensures var c := s.tasks[s.running].a0;
      Stranded(WaitPid(s), s.running) <==>
        c != -1 && IsChild(s.tasks, s.running, c) && s.tasks[c].state == Dead && s.queue != []
  {
    if s.queue != [] { InElems(s.queue, 0); }
  }

  lemma StaysStranded(s: Sys, e: Event, p: int)
    requires Inv(s) && Stranded(s, p) && Step(s, e).Continue?
    ensures Stranded(Step(s, e).sys, p) && Step(s, e).sys.tasks[p].channel == s.tasks[p].channel
  {
    var c := s.tasks[p].channel;
    DeathIsFinal(s, e, c);
    if e.ExitCall? && s.running != 0 {
      assert c != s.running;
      OthersInExit(s, e.status, p);
      ExitedHandover(s, e.status);
      InElems(Exited(s, e.status).queue, 0);
    } else if !e.ExitCall? {
      Others(s, e, p);
      StillElsewhere(s, e, p);
    }
  }

  /** A step other than exit gives the CPU to a task of the queue, if it gives it away. */
  lemma StillElsewhere(s: Sys, e: Event, p: int)
    requires Inv(s) && p in s.tasks && p != s.running && s.tasks[p].state == Sleeping
    requires Step(s, e).Continue? && !e.ExitCall?
    ensures Step(s, e).sys.running != p
  {
    if s.queue != [] { InElems(s.queue, 0); }
  }

  /** It sleeps for ever, whatever the others do. */
  lemma {:induction false} StrandedForever(s: Sys, events: seq<Event>, p: int)
    requires Inv(s) && Stranded(s, p) && Run(s, events).Continue?
    ensures Stranded(Run(s, events).sys, p)
    decreases |events|
  {
    if events != [] {
      StaysStranded(s, events[0], p);
      StepInv(s, events[0]);
      StrandedForever(Step(s, events[0]).sys, events[1..], p);
    }
  }

  // ----- No lost wakeup, for init -----

  /** Init sleeps for any child while one of its children is a zombie. */
  ghost predicate InitMissesZombie(s: Sys) {
    && INIT in s.tasks && s.tasks[INIT].state == Sleeping && s.tasks[INIT].channel == INIT
    && exists z :: IsZombieChild(s.tasks, INIT, z)
  }

  /** An exit makes init miss a zombie if and only if init sleeps for any child, the exiting
      task is not its child, and that task leaves a zombie child behind. */
  lemma InitMissesZombieIff(s: Sys, status: int)
    requires Inv(s) && s.running != 0 && s.running != INIT && !InitMissesZombie(s)
    ensures InitMissesZombie(Exited(s, status)) <==>
      && s.tasks[INIT].state == Sleeping && s.tasks[INIT].channel == INIT
      && s.tasks[s.running].parent != INIT
      && exists z :: IsZombieChild(s.tasks, s.running, z)
  {
    LeftTasks(s, status);
    var t := s.running;
    var s' := Exited(s, status);
    var parent := s.tasks[t].parent;
    assert parent in s.tasks && parent != t;
    if s.tasks[INIT].state == Sleeping && s.tasks[INIT].channel == INIT && parent != INIT {
      assert s'.tasks[INIT] == s.tasks[INIT];
      if z :| IsZombieChild(s.tasks, t, z) {
        assert z != t && z != parent;
        assert IsZombieChild(s'.tasks, INIT, z);
      }
      if z :| IsZombieChild(s'.tasks, INIT, z) {
        assert z != t && s.tasks[z].state == Zombie;
        assert !IsZombieChild(s.tasks, INIT, z);
        assert IsZombieChild(s.tasks, t, z);
      }
    }
  }

  // ----- Two runs -----

  /** A task in the state given, never asleep before, with these registers. */
  function Plain(state: State, parent: int, exitStatus: int, a0: int, shared: int): Task {
    Task(state, 0, parent, exitStatus, a0, 0, shared)
  }

  function Waiter(a0: int): Task {
    Task(Sleeping, INIT, 0, 0, a0, 0, 0)
  }

  lemma Booted()
    ensures Reachable(Sys(map[1 := Plain(Running, 0, 0, 1, 0)], [1], [], 1, 2))
  {
    BootInv();
    assert Run(Boot(), []) == Continue(Boot());
    ReachStep(Boot(), Scheduler);
    assert Step(Boot(), Scheduler).sys == Sys(map[1 := Plain(Running, 0, 0, 1, 0)], [1], [], 1, 2);
  }

  lemma Next(s: Sys, e: Event, s': Sys)
    requires Reachable(s) && (Inv(s) ==> Step(s, e) == Continue(s'))
    ensures Reachable(s')
  {
    ReachStep(s, e);
  }

  lemma Forked()
    ensures Reachable(Sys(map[1 := Plain(Running, 0, 0, 2, 0), 2 := Plain(Runnable, 1, 0, 0, 0)], [1, 2], [2], 1, 3))
  {
    Booted();
    Next(Sys(map[1 := Plain(Running, 0, 0, 1, 0)], [1], [], 1, 2), ForkCall(true),
         Sys(map[1 := Plain(Running, 0, 0, 2, 0), 2 := Plain(Runnable, 1, 0, 0, 0)], [1, 2], [2], 1, 3));
  }

  lemma ChildRuns()
    ensures Reachable(Sys(map[1 := Plain(Runnable, 0, 0, 2, 0), 2 := Plain(Running, 1, 0, 0, 0)], [1, 2], [1], 2, 3))
  {
    Forked();
    Next(Sys(map[1 := Plain(Running, 0, 0, 2, 0), 2 := Plain(Runnable, 1, 0, 0, 0)], [1, 2], [2], 1, 3), Timer,
         Sys(map[1 := Plain(Runnable, 0, 0, 2, 0), 2 := Plain(Running, 1, 0, 0, 0)], [1, 2], [1], 2, 3));
  }

  lemma ChildExits()
    ensures Reachable(Sys(map[1 := Plain(Running, 0, 0, 2, 0), 2 := Plain(Zombie, 1, 7, 0, 0)], [1, 2], [], 1, 3))
  {
    ChildRuns();
    Next(Sys(map[1 := Plain(Runnable, 0, 0, 2, 0), 2 := Plain(Running, 1, 0, 0, 0)], [1, 2], [1], 2, 3), ExitCall(7),
         Sys(map[1 := Plain(Running, 0, 0, 2, 0), 2 := Plain(Zombie, 1, 7, 0, 0)], [1, 2], [], 1, 3));
  }

  /** Init forks a child and the child exits; init asks for it by its pid, and is refused. */
  lemma WaitPidOnZombie() returns (s: Sys)
    ensures Reachable(s) && s.running in s.tasks && IsZombieChild(s.tasks, s.running, s.tasks[s.running].a0)
    ensures Inv(s) && s.running != 0 && WaitPid(s) == Refuse(s)
  {
    ChildExits();
    s := Sys(map[1 := Plain(Running, 0, 0, 2, 0), 2 := Plain(Zombie, 1, 7, 0, 0)], [1, 2], [], 1, 3);
    ReachStep(s, Timer);
  }

  // Task 2 forks 3, which exits.
  function B1(): Sys {
    Sys(map[1 := Plain(Runnable, 0, 0, 2, 0), 2 := Plain(Running, 1, 0, 3, 0), 3 := Plain(Runnable, 2, 0, 0, 0)],
        [1, 2, 3], [1, 3], 2, 4)
  }

  function B2(): Sys {
    Sys(map[1 := Plain(Running, 0, 0, 2, 0), 2 := Plain(Runnable, 1, 0, 3, 0), 3 := Plain(Runnable, 2, 0, 0, 0)],
        [1, 2, 3], [3, 2], 1, 4)
  }

  function B3(): Sys {
    Sys(map[1 := Plain(Runnable, 0, 0, 2, 0), 2 := Plain(Runnable, 1, 0, 3, 0), 3 := Plain(Running, 2, 0, 0, 0)],
        [1, 2, 3], [2, 1], 3, 4)
  }

  function B4(): Sys {
    Sys(map[1 := Plain(Runnable, 0, 0, 2, 0), 2 := Plain(Running, 1, 0, 3, 0), 3 := Plain(Zombie, 2, 0, 0, 0)],
        [1, 2, 3], [1], 2, 4)
  }

  function B5(): Sys {
    Sys(map[1 := Plain(Runnable, 0, 0, 2, 0), 2 := Plain(Running, 1, 0, 3, 0), 3 := Plain(Dead, 2, 0, 0, 0)],
        [1, 2, 3], [1], 2, 4)
  }

  function B6(): Sys {
    Sys(map[1 := Plain(Running, 0, 0, 2, 0), 2 := Task(Sleeping, 2, 1, 0, 3, 0, 0), 3 := Plain(Dead, 2, 0, 0, 0)],
        [1, 2, 3], [], 1, 4)
  }

  lemma ReachB2()
    ensures Reachable(B2())
  {
    ChildRuns();
    Next(Sys(map[1 := Plain(Runnable, 0, 0, 2, 0), 2 := Plain(Running, 1, 0, 0, 0)], [1, 2], [1], 2, 3), ForkCall(true),
         B1());
    Next(B1(), Timer, B2());
  }

  lemma ReachB4()
    ensures Reachable(B4())
  {
    ReachB2();
    Next(B2(), Timer, B3());
    Next(B3(), ExitCall(0), B4());
  }

  lemma ReachB6()
    ensures Reachable(B6())
  {
    ReachB4();
    Next(B4(), WaitCall, B5());
    assert IsChild(B5().tasks, 2, 3) && 3 in Elems([1, 2, 3]);
    Next(B5(), WaitCall, B6());
  }

  /** A child of init reaps its only child, and waits again, while init can run: it sleeps for ever. */
  lemma WaitOnDeadChild() returns (s: Sys, p: int)
    ensures Reachable(s) && Bereft(s, p) && p != INIT && s.running == INIT
    ensures exists c :: IsChild(s.tasks, p, c)
  {
    ReachB6();
    s, p := B6(), 2;
    assert IsChild(s.tasks, 2, 3);
  }

  /** Init reaps the child, forks another, and asks for the first by its pid: it sleeps for ever. */
  lemma WaitPidOnDeadChild() returns (s: Sys)
    ensures Reachable(s) && Stranded(s, INIT) && IsChild(s.tasks, INIT, s.tasks[INIT].channel)
  {
    ChildExits();
    var s0 := Sys(map[1 := Plain(Running, 0, 0, 2, 0), 2 := Plain(Zombie, 1, 7, 0, 0)], [1, 2], [], 1, 3);
    var s1 := Sys(map[1 := Plain(Running, 0, 0, 2, 7), 2 := Plain(Dead, 1, 7, 0, 0)], [1, 2], [], 1, 3);
    Next(s0, WaitCall, s1);
    WaitPidOnDeadChildFrom(s1);
    s := Sys(map[1 := Task(Sleeping, 2, 0, 0, 2, 0, 7), 2 := Plain(Dead, 1, 7, 0, 0), 3 := Plain(Running, 1, 0, 0, 0)],
             [1, 2, 3], [], 3, 4);
  }

  lemma WaitPidOnDeadChildFrom(s1: Sys)
    requires s1 == Sys(map[1 := Plain(Running, 0, 0, 2, 7), 2 := Plain(Dead, 1, 7, 0, 0)], [1, 2], [], 1, 3)
    requires Reachable(s1)
    ensures Reachable(Sys(map[1 := Task(Sleeping, 2, 0, 0, 2, 0, 7), 2 := Plain(Dead, 1, 7, 0, 0),
                              3 := Plain(Running, 1, 0, 0, 0)], [1, 2, 3], [], 3, 4))
  {
    var dead, child := Plain(Dead, 1, 7, 0, 0), Plain(Runnable, 1, 0, 0, 0);
    var s2 := Sys(map[1 := Plain(Running, 0, 0, 3, 7), 2 := dead, 3 := child], [1, 2, 3], [3], 1, 4);
    Next(s1, ForkCall(true), s2);
    var s3 := Sys(map[1 := Plain(Running, 0, 0, 2, 7), 2 := dead, 3 := child], [1, 2, 3], [3], 1, 4);
    Next(s2, User(2, 0), s3);
    Next(s3, WaitPidCall, Sys(map[1 := Task(Sleeping, 2, 0, 0, 2, 0, 7), 2 := dead, 3 := Plain(Running, 1, 0, 0, 0)],
                              [1, 2, 3], [], 3, 4));
  }

  // Init sleeps; task 2 forks 3, and 3 forks 4; 4 exits, then 3.
  function W1(): Sys {
    Sys(map[1 := Waiter(2), 2 := Plain(Running, 1, 0, 0, 0)], [1, 2], [], 2, 3)
  }

  function W2(): Sys {
    Sys(map[1 := Waiter(2), 2 := Plain(Running, 1, 0, 3, 0), 3 := Plain(Runnable, 2, 0, 0, 0)], [1, 2, 3], [3], 2, 4)
  }

  function W3(): Sys {
    Sys(map[1 := Waiter(2), 2 := Plain(Runnable, 1, 0, 3, 0), 3 := Plain(Running, 2, 0, 0, 0)], [1, 2, 3], [2], 3, 4)
  }

  function W4(): Sys {
    Sys(map[1 := Waiter(2), 2 := Plain(Runnable, 1, 0, 3, 0), 3 := Plain(Running, 2, 0, 4, 0),
            4 := Plain(Runnable, 3, 0, 0, 0)],
        [1, 2, 3, 4], [2, 4], 3, 5)
  }

  function W5(): Sys {
    Sys(map[1 := Waiter(2), 2 := Plain(Running, 1, 0, 3, 0), 3 := Plain(Runnable, 2, 0, 4, 0),
            4 := Plain(Runnable, 3, 0, 0, 0)],
        [1, 2, 3, 4], [4, 3], 2, 5)
  }

  function W6(): Sys {
    Sys(map[1 := Waiter(2), 2 := Plain(Runnable, 1, 0, 3, 0), 3 := Plain(Runnable, 2, 0, 4, 0),
            4 := Plain(Running, 3, 0, 0, 0)],
        [1, 2, 3, 4], [3, 2], 4, 5)
  }

  function W7(): Sys {
    Sys(map[1 := Waiter(2), 2 := Plain(Runnable, 1, 0, 3, 0), 3 := Plain(Running, 2, 0, 4, 0),
            4 := Plain(Zombie, 3, 0, 0, 0)],
        [1, 2, 3, 4], [2], 3, 5)
  }

  function W8(): Sys {
    Sys(map[1 := Waiter(2), 2 := Plain(Running, 1, 0, 3, 0), 3 := Plain(Zombie, 2, 0, 4, 0),
            4 := Plain(Zombie, 1, 0, 0, 0)],
        [1, 2, 3, 4], [], 2, 5)
  }

  lemma ReachW1()
    ensures Reachable(W1())
  {
    Forked();
    Next(Sys(map[1 := Plain(Running, 0, 0, 2, 0), 2 := Plain(Runnable, 1, 0, 0, 0)], [1, 2], [2], 1, 3), WaitCall,
         W1());
  }

  lemma ReachW2()
    ensures Reachable(W2())
  {
    ReachW1();
    Next(W1(), ForkCall(true), W2());
  }

  lemma ReachW3()
    ensures Reachable(W3())
  {
    ReachW2();
    Next(W2(), Timer, W3());
  }

  lemma ReachW4()
    ensures Reachable(W4())
  {
    ReachW3();
    Next(W3(), ForkCall(true), W4());
  }

  lemma ReachW5()
    ensures Reachable(W5())
  {
    ReachW4();
    Next(W4(), Timer, W5());
  }

  lemma ReachW6()
    ensures Reachable(W6())
  {
    ReachW5();
    Next(W5(), Timer, W6());
  }

  lemma ReachW7()
    ensures Reachable(W7())
  {
    ReachW6();
    Next(W6(), ExitCall(0), W7());
  }

  lemma ReachW8()
    ensures Reachable(W8())
  {
    ReachW7();
    Next(W7(), ExitCall(0), W8());
  }

  /** A reachable state in which init sleeps for any child and misses a zombie. */
  lemma InitMissesZombieRun() returns (s: Sys)
    ensures Reachable(s) && InitMissesZombie(s)
  {
    ReachW8();
    s := W8();
    assert IsZombieChild(s.tasks, INIT, 4);
  }
}
