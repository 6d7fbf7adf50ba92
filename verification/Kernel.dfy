/** The scheduler and the process system calls of kernel/process.c on their real data: a
    linked run queue, a node for the running task, and task structures updated in place.
    Every method does what the step function of the same name says. */
module Kernel {
  import opened Tasks
  import opened TaskInvariants
  import opened LinkedList

  /** The queue from its first runnable task on. */
  function SkipTo(tasks: map<int, Task>, queue: seq<int>): seq<int> {
    if queue == [] || (queue[0] in tasks && tasks[queue[0]].state == Runnable) then queue else SkipTo(tasks, queue[1..])
  }

  /** `ancestor` is above `task` in the tree of parents. */
  ghost predicate Ancestor(tasks: map<int, Task>, ancestor: int, task: int)
    decreases task
  {
    task in tasks &&
    var parent := tasks[task].parent;
    0 < parent < task && (parent == ancestor || Ancestor(tasks, ancestor, parent))
  }

  /** All tasks but those still to visit have been reparented. */
  ghost predicate ReparentedBefore(before: map<int, Task>, tasks: map<int, Task>, left: set<int>) {
    && tasks.Keys == before.Keys && left <= before.Keys
    && (forall p {:trigger tasks[p].state} :: p in tasks ==> tasks[p].state == before[p].state)
    && forall p {:trigger tasks[p]} :: p in tasks ==>
      tasks[p] == Reparented(before)[p] || (tasks[p] == before[p] && p in left)
  }

  lemma AllReparented(before: map<int, Task>, tasks: map<int, Task>)
    requires ReparentedBefore(before, tasks, {})
    ensures tasks == Reparented(before)
  {
    forall p | p in before
      ensures tasks[p] == Reparented(before)[p]
    {
      assert tasks[p] == tasks[p];
    }
  }

  class Kernel {
    var tasks: map<int, Task>
    var allTasks: seq<int>
    const runnable: List
    var running: Node?
    var nextPid: int

    ghost function Abs(): Sys
      reads this, runnable
    {
      Sys(tasks, allTasks, runnable.contents, if running == null then 0 else running.data, nextPid)
    }

    /** The list is sound and the node of the running task is not on it. */
    ghost predicate Sound()
      reads this, runnable, runnable.nodes
    {
      runnable.Valid() && (running != null ==> running !in runnable.nodes && running.data != 0)
    }

    ghost predicate Valid()
      reads this, runnable, runnable.nodes
    {
      Sound() && Inv(Abs())
    }

    constructor ()
      ensures Abs() == Boot()
      ensures Valid()
      ensures fresh(runnable) && fresh(runnable.nodes)
    {
      tasks := Boot().tasks;
      allTasks, nextPid, running := [INIT], 2, null;
      runnable := new List();
      new;
      var node := new Node(INIT);
      runnable.PushTail(node);
      BootInv();
      assert runnable.contents == [INIT];
      ValidAt(Boot());
    }

    lemma ValidAt(s: Sys)
      requires Sound() && Abs() == s && Inv(s)
      ensures Valid()
    {}

    // ----- Scheduling -----

    /** Drops entries from the head of the queue until it finds a runnable task. The code reads through a null
        pointer when there are entries and none of them is runnable. */
    method NextTaskToRun() returns (node: Node?)
      requires runnable.Valid() && forall i :: 0 <= i < |runnable.contents| ==> runnable.contents[i] in tasks
      requires runnable.contents != [] ==> SkipTo(tasks, runnable.contents) != []
      modifies runnable
      ensures runnable.Valid() && runnable.contents == SkipTo(tasks, old(runnable.contents))
      ensures node == null <==> old(runnable.contents) == []
      ensures node != null ==> runnable.nodes != [] && node == runnable.nodes[0] && node.data == runnable.contents[0]
      ensures node != null ==> node.data in tasks && tasks[node.data].state == Runnable
      ensures runnable.contents == old(runnable.contents) ==> runnable.nodes == old(runnable.nodes)
    {
      if runnable.size == 0 {
        return null;
      }
      node := runnable.head;
      while tasks[node.data].state != Runnable
        invariant runnable.Valid() && runnable.contents != [] && node == runnable.head
        invariant forall i :: 0 <= i < |runnable.contents| ==> runnable.contents[i] in tasks
        invariant SkipTo(tasks, runnable.contents) == SkipTo(tasks, old(runnable.contents)) != []
        invariant |runnable.contents| <= |old(runnable.contents)|
        invariant |runnable.contents| == |old(runnable.contents)| ==> runnable.nodes == old(runnable.nodes)
        decreases |runnable.contents|
      {
        runnable.PopHeadWithoutFree();
        node := runnable.head;
      }
    }

    /** Under the invariant the head of the queue is runnable, so the loop has nothing to do. */
    lemma NothingSkipped()
      requires runnable.Valid() && Handover(Abs()) && runnable.contents != []
      ensures forall i :: 0 <= i < |runnable.contents| ==> runnable.contents[i] in tasks
      ensures SkipTo(tasks, runnable.contents) == runnable.contents
    {
      forall i | 0 <= i < |runnable.contents|
        ensures runnable.contents[i] in tasks && tasks[runnable.contents[i]].state == Runnable
      {
        InElems(runnable.contents, i);
      }
    }

    /** The body of the scheduler loop; true when the kernel panics. */
    method Schedule() returns (panicked: bool)
      requires Valid()
      modifies this, runnable
      ensures panicked <==> old(Abs()).running != 0
      ensures !panicked ==> Valid() && Abs() == Tasks.Schedule(old(Abs()))
    {
      if running != null {
        return true;
      }
      panicked := false;
      ScheduleInv(Abs());
      if runnable.size > 0 {
        assert runnable.contents[0] in Elems(Abs().queue);
        running := runnable.head;
        var t := running.data;
        tasks := tasks[t := tasks[t].(state := Running)];
        runnable.PopHeadWithoutFree();
      }
    }

    /** The running task, if it is in state running, goes to the tail of the queue. */
    method RequeueSelf()
      requires Sound() && running != null
      modifies this, runnable, runnable.nodes, running
      ensures runnable.Valid() && running == old(running)
      ensures Abs() == Requeue(old(Abs()))
    {
      var t := running.data;
      if t in tasks && tasks[t].state == Running {
        tasks := tasks[t := tasks[t].(state := Runnable)];
        runnable.PushTail(running);
      }
    }

    /** The head of the queue becomes the running task. */
    method Dispatch()
      requires runnable.Valid() && Handover(Abs()) && runnable.size > 0
      modifies this, runnable
      ensures Sound() && running != null
      ensures old(Abs()).queue != [] && old(Abs()).queue[0] in old(Abs()).tasks
      ensures Abs() == Switch(old(Abs()))
    {
      NothingSkipped();
      running := NextTaskToRun();
      runnable.PopHeadWithoutFree();
      tasks := tasks[running.data := tasks[running.data].(state := Running)];
    }

    /** `yield`; false when it returns at once because nobody else can run. */
    method YieldCpu() returns (switched: bool)
      requires Sound() && running != null && Handover(Requeue(Abs()))
      modifies this, runnable, runnable.nodes, running
      ensures Sound() && running != null
      ensures switched <==> old(runnable.contents) != []
      ensures switched ==>
        var s := Requeue(old(Abs())); s.queue != [] && s.queue[0] in s.tasks && Abs() == Switch(s)
      ensures !switched ==> Abs() == old(Abs())
    {
      if runnable.size == 0 {
        return false;
      }
      RequeueSelf();
      Dispatch();
      return true;
    }

    method Yield()
      requires Valid() && running != null
      modifies this, runnable, runnable.nodes, running
      ensures Abs() == Tasks.Yield(old(Abs()))
      ensures Valid()
    {
      RequeueHandover(Abs());
      YieldInv(Abs());
      ghost var s := Abs();
      var switched := YieldCpu();
      ValidAt(Tasks.Yield(s));
    }

    // ----- Fork and exit -----

    method Fork(created: bool)
      requires Valid() && running != null
      modifies this, runnable, runnable.nodes
      ensures Abs() == Tasks.Fork(old(Abs()), created)
      ensures Valid()
    {
      if created {
        ghost var s := Abs();
        ForkInv(s, true);
        AddChild();
        ValidAt(Tasks.Fork(s, true));
      } else {
        RefuseCall();
      }
    }

    /** `new_task` succeeded: the child goes to the tails of both lists. */
    method AddChild()
      requires Sound() && running != null && running.data in tasks && nextPid != 0
      modifies this, runnable, runnable.nodes
      ensures Sound() && running == old(running)
      ensures Abs() == Tasks.Fork(old(Abs()), true)
    {
      var t := running.data;
      var child := Task(Runnable, 0, t, 0, 0, tasks[t].a1, 0);
      tasks := tasks[t := tasks[t].(a0 := nextPid)][nextPid := child];
      var node := new Node(nextPid);
      runnable.PushTail(node);
      allTasks := allTasks + [nextPid];
      nextPid := nextPid + 1;
    }

    /** The system call returns -1. */
    method RefuseCall()
      requires Valid() && running != null
      modifies this`tasks
      ensures Abs() == Refuse(old(Abs()))
      ensures Valid()
    {
      ghost var s := Abs();
      RegistersInv(s, Refuse(s));
      var t := running.data;
      tasks := tasks[t := tasks[t].(a0 := -1)];
      ValidAt(Refuse(s));
    }

    /** `for_each_node(all_tasks, reparent)`. */
    method ReparentAll()
      requires Elems(allTasks) == tasks.Keys && INIT in tasks && tasks[INIT].state != Zombie
      modifies this`tasks
      ensures tasks == Reparented(old(tasks))
    {
      var i := 0;
      ghost var before := tasks;
      assert allTasks[0..] == allTasks;
      while i < |allTasks|
        invariant 0 <= i <= |allTasks|
        invariant ReparentedBefore(before, tasks, Elems(allTasks[i..]))
      {
        var p := allTasks[i];
        assert allTasks[i..][0] == p && allTasks[i..][1..] == allTasks[i + 1..];
        var parent := tasks[p].parent;
        if parent in tasks && tasks[parent].state == Zombie {
          tasks := tasks[p := tasks[p].(parent := INIT)];
        }
        i := i + 1;
      }
      assert Elems(allTasks[i..]) == {};
      AllReparented(before, tasks);
    }

    /** `exit_process`; true when the kernel panics. */
    method Exit(status: int) returns (panicked: bool)
      requires Valid() && running != null
      modifies this, runnable, runnable.nodes, running
      ensures panicked <==> Tasks.Exit(old(Abs()), status).Panic?
      ensures !panicked ==> Valid() && Abs() == Tasks.Exit(old(Abs()), status).sys
    {
      ghost var s := Abs();
      var t := running.data;
      if t == INIT {
        return true;
      }
      ExitedHandover(s, status);
      ExitInv(s, status);
      LeaveTask(status);
      ghost var s1 := Abs();
      assert Requeue(s1) == s1;
      var switched := YieldCpu();
      return !switched;
    }

    /** `exit_process` up to its call of `yield`. */
    method LeaveTask(status: int)
      requires Valid() && running != null && running.data != INIT
      modifies this, runnable, runnable.nodes
      ensures Sound() && running == old(running)
      ensures Abs() == Exited(old(Abs()), status)
      ensures old(runnable.nodes) <= runnable.nodes
      ensures forall i :: |old(runnable.nodes)| <= i < |runnable.nodes| ==> fresh(runnable.nodes[i])
    {
      ghost var s := Abs();
      assert Live(s.tasks[INIT]);
      var t := running.data;
      tasks := tasks[t := tasks[t].(state := Zombie, exitStatus := status)];
      ReparentAll();
      assert Abs() == Left(s, status);
      var parent := tasks[t].parent;
      if Awaits(tasks, parent, t) {
        WakeParent(t, parent);
      }
    }

    /** The parent takes the status of the exiting task and gets a node on the queue. */
    method WakeParent(t: int, parent: int)
      requires Sound() && t in tasks && parent in tasks && t != parent
      modifies this`tasks, runnable, runnable.nodes
      ensures Sound() && Abs() == Wake(old(Abs()), t, parent)
      ensures old(runnable.nodes) <= runnable.nodes
      ensures forall i :: |old(runnable.nodes)| <= i < |runnable.nodes| ==> fresh(runnable.nodes[i])
    {
      tasks := tasks[t := tasks[t].(state := Dead)]
                    [parent := tasks[parent].(state := Runnable, a0 := t, a1 := tasks[t].exitStatus)];
      var node := new Node(parent);
      runnable.PushTail(node);
    }

    // ----- Searches -----

    /** None of the first `n` tasks on all_tasks is a zombie child of the task. */
    ghost predicate NoneBefore(n: int, t: int)
      reads this
    {
      forall j :: 0 <= j < n <= |allTasks| && allTasks[j] != 0 ==> !IsZombieChild(tasks, t, allTasks[j])
    }

    method GetOneZombieChild(t: int) returns (z: int)
      ensures z == ZombieChild(tasks, allTasks, t)
      ensures z == 0 ==> NoneBefore(|allTasks|, t)
      ensures z != 0 ==>
        IsZombieChild(tasks, t, z) && exists i :: 0 <= i < |allTasks| && allTasks[i] == z && NoneBefore(i, t)
    {
      var i := 0;
      assert allTasks[0..] == allTasks;
      while i < |allTasks|
        invariant 0 <= i <= |allTasks| && ZombieChild(tasks, allTasks[i..], t) == ZombieChild(tasks, allTasks, t)
        invariant NoneBefore(i, t)
      {
        var c := allTasks[i];
        assert allTasks[i..][0] == c && allTasks[i..][1..] == allTasks[i + 1..];
        if c != 0 && c in tasks && tasks[c].parent == t && tasks[c].state == Zombie {
          return c;
        }
        i := i + 1;
      }
      return 0;
    }

    method HasAliveChild(t: int) returns (found: bool)
      ensures found <==> Tasks.HasAliveChild(tasks, allTasks, t)
    {
      var i := 0;
      assert allTasks[0..] == allTasks;
      while i < |allTasks|
        invariant 0 <= i <= |allTasks|
        invariant Tasks.HasAliveChild(tasks, allTasks[i..], t) <==> Tasks.HasAliveChild(tasks, allTasks, t)
      {
        var c := allTasks[i];
        assert allTasks[i..][0] == c && allTasks[i..][1..] == allTasks[i + 1..];
        assert Elems(allTasks[i..]) == {c} + Elems(allTasks[i + 1..]);
        if c in tasks && tasks[c].parent == t {
          assert IsChild(tasks, t, c);
          return true;
        }
        i := i + 1;
      }
      return false;
    }

    method FindTask(pid: int) returns (t: int)
      ensures t == if pid in Elems(allTasks) then pid else 0
    {
      var i := 0;
      assert allTasks[0..] == allTasks;
      while i < |allTasks|
        invariant 0 <= i <= |allTasks| && (pid in Elems(allTasks[i..]) <==> pid in Elems(allTasks))
      {
        assert allTasks[i..][0] == allTasks[i] && allTasks[i..][1..] == allTasks[i + 1..];
        if allTasks[i] == pid {
          return pid;
        }
        i := i + 1;
      }
      return 0;
    }

    /** Climbs the tree of parents; it ends because pids fall on the way up. */
    method IsAncestor(ancestor: int, task: int) returns (found: bool)
      requires Valid() && (task == 0 || task in tasks)
      ensures found <==> ancestor != 0 && task != 0 && Ancestor(tasks, ancestor, task)
    {
      if task == 0 || ancestor == 0 {
        return false;
      }
      var tmp := tasks[task].parent;
      ghost var below := task;
      assert Tree(Abs());
      while tmp != 0
        invariant below in tasks && tmp == tasks[below].parent && 0 <= tmp < below && (tmp != 0 ==> tmp in tasks)
        invariant Ancestor(tasks, ancestor, task) <==> Ancestor(tasks, ancestor, below)
        decreases tmp
      {
        if tmp == ancestor {
          return true;
        }
        below := tmp;
        tmp := tasks[tmp].parent;
      }
      return false;
    }

    /** `sys_send_signal` refuses every request: `is_alive` holds of every task. */
    method SendSignal(pid: int, signal: int) returns (r: int)
      requires Valid() && running != null
      ensures r == -1
    {
      var target := FindTask(pid);
      var above := IsAncestor(running.data, target);
      if !above || target != 0 {
        return -1;
      }
      assert false;
    }

    // ----- Wait -----

    /** `sleep` and what follows it when `yield` returns at once. */
    method Sleep(channel: int, statusPtr: int)
      requires Valid() && running != null && MaySleep(Abs(), channel)
      modifies this, runnable, runnable.nodes, running
      ensures Abs() == Tasks.Sleep(old(Abs()), channel, statusPtr)
      ensures Valid()
    {
      ghost var s := Abs();
      AsleepShape(s, channel);
      AsleepQueue(s, channel);
      SleepInv(s, channel, statusPtr);
      var t := running.data;
      tasks := tasks[t := tasks[t].(state := Sleeping, channel := channel)];
      assert Abs() == Asleep(s, channel) && Requeue(Abs()) == Abs();
      RemoveFromQueue(t);
      var switched := YieldCpu();
      if !switched && statusPtr != 0 {
        tasks := tasks[t := tasks[t].(shared := tasks[t].a1)];
      }
      ValidAt(Tasks.Sleep(s, channel, statusPtr));
    }

    /** `removeAt(runnable_tasks, task)`: a sleeping task is not on the queue. */
    method RemoveFromQueue(t: int)
      requires Sound() && t !in Elems(runnable.contents)
      modifies runnable, runnable.nodes
      ensures Sound() && Abs() == old(Abs()) && runnable.nodes == old(runnable.nodes)
    {
      NotLater(runnable.contents, t, 1);
      var r := runnable.RemoveAt(t);
    }

    /** The part that `sys_wait` and `sys_wait_pid(-1)` share. */
    method WaitAny(t: int, statusPtr: int)
      requires Valid() && running != null && t == running.data
      modifies this, runnable, runnable.nodes, running
      ensures Abs() == AnyChild(old(Abs()), statusPtr)
      ensures Valid()
    {
      var z := GetOneZombieChild(t);
      if z != 0 {
        ReapChild(z, statusPtr);
        return;
      }
      var alive := HasAliveChild(t);
      if alive {
        NoZombieChild(Abs(), t);
        Sleep(t, statusPtr);
      } else {
        RefuseCall();
      }
    }

    method Wait()
      requires Valid() && running != null
      modifies this, runnable, runnable.nodes, running
      ensures Abs() == Tasks.Wait(old(Abs()))
      ensures Valid()
    {
      var t := running.data;
      WaitAny(t, tasks[t].a0);
    }

    method WaitPid()
      requires Valid() && running != null
      modifies this, runnable, runnable.nodes, running
      ensures Abs() == Tasks.WaitPid(old(Abs()))
      ensures Valid()
    {
      var t := running.data;
      var pid, statusPtr := tasks[t].a0, tasks[t].a1;
      if pid == -1 {
        WaitAny(t, statusPtr);
        return;
      }
      var child := FindTask(pid);
      if child == 0 || tasks[child].parent != t || tasks[child].state == Zombie {
        RefuseCall();
      } else {
        Sleep(child, statusPtr);
      }
    }

    method ReapChild(z: int, statusPtr: int)
      requires Valid() && running != null && IsZombieChild(tasks, running.data, z)
      modifies this`tasks
      ensures Abs() == Reap(old(Abs()), z, statusPtr)
      ensures Valid()
    {
      ghost var s := Abs();
      ReapInv(s, z, statusPtr);
      var t := running.data;
      var me := if statusPtr != 0 then tasks[t].(shared := tasks[z].exitStatus) else tasks[t];
      tasks := tasks[t := me.(a0 := z)][z := tasks[z].(state := Dead)];
      ValidAt(Reap(s, z, statusPtr));
    }
  }

  lemma {:induction false} NotLater(contents: seq<int>, t: int, i: nat)
    requires 1 <= i && t !in Elems(contents)
    ensures LaterIndex(contents, t, i) == |contents|
    decreases |contents| - i
  {
    if i < |contents| {
      InElems(contents, i);
      NotLater(contents, t, i + 1);
    }
  }

}
