/** Tasks and the steps of the kernel over them (kernel/process.c), as functions of the
    whole system state. Every step is atomic: the kernel runs on one CPU with interrupts
    off. Tasks are never freed, so a task is named by its pid; 0 is the null pointer. */
module Tasks {

  const INIT: int := 1

  datatype State = Sleeping | Runnable | Running | Zombie | Dead

  /** `a0` and `a1` are the registers of the trap frame, `shared` the status word of the
      shared page. */
  datatype Task = Task(state: State, channel: int, parent: int, exitStatus: int, a0: int, a1: int, shared: int)

  datatype Sys = Sys(tasks: map<int, Task>, order: seq<int>, queue: seq<int>, running: int, nextPid: int)

  /** After `init_scheduler`: one runnable task, nothing running. */
  function Boot(): Sys {
    Sys(map[INIT := Task(Runnable, 0, 0, 0, 1, 0, 0)], [INIT], [INIT], 0, 2)
  }

  // ----- Lists of tasks -----

  function Elems(s: seq<int>): set<int> {
    if s == [] then {} else {s[0]} + Elems(s[1..])
  }

  lemma {:induction false} InElems(s: seq<int>, i: nat)
    requires i < |s|
    ensures s[i] in Elems(s)
  {
    if i > 0 {
      InElems(s[1..], i - 1);
    }
  }

  predicate NoDup(s: seq<int>) {
    s == [] || (s[0] !in Elems(s[1..]) && NoDup(s[1..]))
  }

  /** In rising order. */
  predicate Increasing(s: seq<int>) {
    s == [] || ((forall p :: p in Elems(s[1..]) ==> s[0] < p) && Increasing(s[1..]))
  }

  // ----- Searches over all_tasks -----

  predicate IsChild(tasks: map<int, Task>, t: int, c: int) {
    c in tasks && tasks[c].parent == t
  }

  predicate IsZombieChild(tasks: map<int, Task>, t: int, c: int) {
    IsChild(tasks, t, c) && tasks[c].state == Zombie
  }

  /** `get_one_zombie_child`: the first in creation order, or 0. */
  function ZombieChild(tasks: map<int, Task>, order: seq<int>, t: int): (z: int)
    ensures z != 0 ==> z in Elems(order) && IsZombieChild(tasks, t, z)
    ensures z == 0 ==> forall c :: c in Elems(order) && c != 0 ==> !IsZombieChild(tasks, t, c)
  {
    if order == [] then 0
    else if order[0] != 0 && IsZombieChild(tasks, t, order[0]) then order[0]
    else ZombieChild(tasks, order[1..], t)
  }

  ghost predicate NoZombieChildren(tasks: map<int, Task>, t: int) {
    forall c {:trigger tasks[c].state, tasks[c].parent} :: c in tasks && tasks[c].state == Zombie ==>
      tasks[c].parent != t
  }

  /** `has_alive_child`. `is_alive` holds of every task, so a dead child counts too. */
  predicate HasAliveChild(tasks: map<int, Task>, order: seq<int>, t: int) {
    exists c :: c in Elems(order) && IsChild(tasks, t, c)
  }

  /** `child_with_pid`: a child that is not a zombie, or 0. */
  function ChildWithPid(tasks: map<int, Task>, t: int, pid: int): int {
    if IsChild(tasks, t, pid) && tasks[pid].state != Zombie then pid else 0
  }

  // ----- Steps -----

  /** `for_each_node(all_tasks, reparent)`: children of zombies go to init. */
  function Reparented(tasks: map<int, Task>): map<int, Task> {
    map p | p in tasks ::
      if tasks[p].parent in tasks && tasks[tasks[p].parent].state == Zombie then tasks[p].(parent := INIT) else tasks[p]
  }

  /** `pop` of the queue: the head becomes the running task. */
  function Switch(s: Sys): Sys
    requires s.queue != [] && s.queue[0] in s.tasks
  {
    var next := s.queue[0];
    s.(tasks := s.tasks[next := s.tasks[next].(state := Running)], queue := s.queue[1..], running := next)
  }

  /** The current task goes to the tail of the queue, if it is running. */
  function Requeue(s: Sys): Sys {
    if s.running in s.tasks && s.tasks[s.running].state == Running then
      s.(tasks := s.tasks[s.running := s.tasks[s.running].(state := Runnable)], queue := s.queue + [s.running])
    else s
  }

  function Yield(s: Sys): Sys
    requires Inv(s)
  {
    if s.queue == [] then s else
    assert s.queue[0] in Elems(s.queue);
    Switch(Requeue(s))
  }

  /** One round of the scheduler loop. */
  function Schedule(s: Sys): Sys
    requires Inv(s) && s.running == 0
  {
    if s.queue == [] then s else
    assert s.queue[0] in Elems(s.queue);
    Switch(s)
  }

  /** `created` is false when `new_task` runs out of memory. */
  function Fork(s: Sys, created: bool): Sys
    requires s.running in s.tasks
  {
    var t := s.running;
    if !created then s.(tasks := s.tasks[t := s.tasks[t].(a0 := -1)])
    else
      var child := Task(Runnable, 0, t, 0, 0, s.tasks[t].a1, 0);
      s.(tasks := s.tasks[t := s.tasks[t].(a0 := s.nextPid)][s.nextPid := child],
         order := s.order + [s.nextPid], queue := s.queue + [s.nextPid], nextPid := s.nextPid + 1)
  }

  /** The waiting parent takes the status of the exiting task `t` and wakes. */
  function Wake(s: Sys, t: int, parent: int): Sys
    requires t in s.tasks && parent in s.tasks
  {
    s.(tasks := s.tasks[t := s.tasks[t].(state := Dead)]
                       [parent := s.tasks[parent].(state := Runnable, a0 := t, a1 := s.tasks[t].exitStatus)],
       queue := s.queue + [parent])
  }

  predicate Awaits(tasks: map<int, Task>, parent: int, t: int) {
    && parent in tasks && tasks[parent].state == Sleeping
    && (tasks[parent].channel == parent || tasks[parent].channel == t)
  }

  /** The current task becomes a zombie and its children go to init. */
  function Left(s: Sys, status: int): Sys
    requires s.running in s.tasks
  {
    var t := s.running;
    s.(tasks := Reparented(s.tasks[t := s.tasks[t].(state := Zombie, exitStatus := status)]))
  }

  /** `exit_process` up to its call of `yield`. */
  function Exited(s: Sys, status: int): Sys
    requires s.running in s.tasks
  {
    var s1 := Left(s, status);
    var parent := s1.tasks[s.running].parent;
    if Awaits(s1.tasks, parent, s.running) then Wake(s1, s.running, parent) else s1
  }

  datatype Outcome = Panic | Continue(sys: Sys)

  /** `exit_process`. It panics for init, and when `yield` finds no other task and returns. */
  function Exit(s: Sys, status: int): Outcome
    requires Inv(s) && s.running != 0
  {
    if s.running == INIT then Panic
    else
      var s1 := Exited(s, status);
      if s1.queue == [] then Panic
      else if s1.queue[0] in s1.tasks then Continue(Switch(s1)) else Panic
  }

  /** The current task marked as sleeping. */
  function Asleep(s: Sys, channel: int): Sys
    requires s.running in s.tasks
  {
    s.(tasks := s.tasks[s.running := s.tasks[s.running].(state := Sleeping, channel := channel)])
  }

  /** `sleep`, with the rest of the system call for the case that `yield` returns at once. */
  function Sleep(s: Sys, channel: int, statusPtr: int): Sys
    requires Inv(s) && s.running != 0
  {
    var t := s.running;
    var s1 := Asleep(s, channel);
    if s.queue == [] then
      if statusPtr != 0 then s1.(tasks := s1.tasks[t := s1.tasks[t].(shared := s1.tasks[t].a1)]) else s1
    else
      assert s.queue[0] in Elems(s.queue);
      Switch(s1)
  }

  /** The zombie's status goes to the shared page and its pid to the caller. */
  function Reap(s: Sys, z: int, statusPtr: int): Sys
    requires s.running in s.tasks && z in s.tasks
  {
    var t := s.running;
    var me := if statusPtr != 0 then s.tasks[t].(shared := s.tasks[z].exitStatus) else s.tasks[t];
    s.(tasks := s.tasks[t := me.(a0 := z)][z := s.tasks[z].(state := Dead)])
  }

  function Refuse(s: Sys): Sys
    requires s.running in s.tasks
  {
    s.(tasks := s.tasks[s.running := s.tasks[s.running].(a0 := -1)])
  }

  /** What `sys_wait` and `sys_wait_pid(-1)` share. */
  function AnyChild(s: Sys, statusPtr: int): Sys
    requires Inv(s) && s.running != 0
  {
    var t := s.running;
    var z := ZombieChild(s.tasks, s.order, t);
    if z != 0 then Reap(s, z, statusPtr)
    else if !HasAliveChild(s.tasks, s.order, t) then Refuse(s)
    else Sleep(s, t, statusPtr)
  }

  function Wait(s: Sys): Sys
    requires Inv(s) && s.running != 0
  {
    AnyChild(s, s.tasks[s.running].a0)
  }

  function WaitPid(s: Sys): Sys
    requires Inv(s) && s.running != 0
  {
    var me := s.tasks[s.running];
    if me.a0 == -1 then AnyChild(s, me.a1)
    else
      var c := ChildWithPid(s.tasks, s.running, me.a0);
      if c == 0 then Refuse(s) else Sleep(s, c, me.a1)
  }

  /** User code runs and leaves what it likes in its registers. */
  function UserRuns(s: Sys, a0: int, a1: int): Sys
    requires Inv(s) && s.running != 0
  {
    s.(tasks := s.tasks[s.running := s.tasks[s.running].(a0 := a0, a1 := a1)])
  }

  // ----- Runs -----

  datatype Event =
    | Scheduler
    | Timer                       // or the system call yield
    | User(a0: int, a1: int)
    | ForkCall(created: bool)
    | ExitCall(status: int)
    | WaitCall
    | WaitPidCall

  /** What happens next. Only the scheduler acts while no task runs, and it panics while one does. */
  function Step(s: Sys, e: Event): Outcome
    requires Inv(s)
  {
    if s.running == 0 then Continue(if e.Scheduler? then Schedule(s) else s)
    else
      match e
      case Scheduler => Panic
      case Timer => Continue(Yield(s))
      case User(a0, a1) => Continue(UserRuns(s, a0, a1))
      case ForkCall(created) => Continue(Fork(s, created))
      case ExitCall(status) => Exit(s, status)
      case WaitCall => Continue(Wait(s))
      case WaitPidCall => Continue(WaitPid(s))
  }

  // ----- What every reachable state satisfies -----

  predicate Live(t: Task) {
    t.state != Zombie && t.state != Dead
  }

  /** Every task is on all_tasks once, and pids are handed out in order. */
  ghost predicate Listed(s: Sys) {
    && Increasing(s.order) && Elems(s.order) == s.tasks.Keys
    && (forall p :: p in s.tasks ==> INIT <= p < s.nextPid)
    && INIT in s.tasks
  }

  /** Parents form a tree rooted at init, whose pids grow towards the leaves, and nobody's
      parent has exited. */
  ghost predicate Tree(s: Sys) {
    && INIT in s.tasks && s.tasks[INIT].parent == 0 && Live(s.tasks[INIT])
    && forall p {:trigger s.tasks[p].parent} :: p in s.tasks && p != INIT ==>
      INIT <= s.tasks[p].parent < p && s.tasks[p].parent in s.tasks && Live(s.tasks[s.tasks[p].parent])
  }

  /** The queue holds exactly the runnable tasks, each once. */
  ghost predicate Queued(s: Sys) {
    && NoDup(s.queue)
    && Elems(s.queue) <= s.tasks.Keys
    && forall p {:trigger s.tasks[p].state} :: p in s.tasks ==> (p in Elems(s.queue) <==> s.tasks[p].state == Runnable)
  }

  /** Only the current task can be in state running. It may also be sleeping: `yield`
      returns to it when nobody else can run. */
  ghost predicate OneRunning(s: Sys) {
    && (s.running != 0 ==>
          s.running in s.tasks && (s.tasks[s.running].state == Running || s.tasks[s.running].state == Sleeping))
    && forall p {:trigger s.tasks[p].state} :: p in s.tasks && s.tasks[p].state == Running ==> p == s.running
  }

  /** A sleeper waits for itself, that is for any child, or for one of its children. */
  ghost predicate Channels(s: Sys) {
    forall p {:trigger s.tasks[p].channel} :: p in s.tasks && s.tasks[p].state == Sleeping ==>
      s.tasks[p].channel == p || IsChild(s.tasks, p, s.tasks[p].channel)
  }

  /** No lost wakeup: the parent of a zombie does not sleep on it nor, init apart, on any
      child. */
  ghost predicate NoLostWakeup(s: Sys) {
    forall z {:trigger s.tasks[z].state, s.tasks[z].parent} :: z in s.tasks && s.tasks[z].state == Zombie ==>
      var p := s.tasks[z].parent;
      p in s.tasks && s.tasks[p].state == Sleeping ==>
        s.tasks[p].channel != z && (p != INIT ==> s.tasks[p].channel != p)
  }

  ghost predicate Inv(s: Sys) {
    Listed(s) && Tree(s) && Queued(s) && OneRunning(s) && Channels(s) && NoLostWakeup(s)
  }
}
