/** The kernel stacks of tasks that end (stack_to_remove and stack_to_remove_next in kernel/process.c). The stack of
    the task that ends is still in use in its last `yield`, so it is given back by the `yield` after that. But
    `clear_user_memory_space`, which puts it down for removal, is called by exec as well. */
module KernelStacks {

  /** A stack is named by its task. `dropped` has been given back; 0 is the null pointer. */
  datatype Stacks = Stacks(live: set<int>, running: int, nextPid: int, remove: int, next: int, dropped: set<int>)

  datatype Event =
    | Fork
    | Exec
    | Exit(to: int)
    | Yield(to: int)

  const INIT: int := 1

  /** The scheduler has switched to init. */
  function Boot(): Stacks { Stacks({INIT}, INIT, 2, 0, 0, {}) }

  /** The running task yields to another one or, when there is none, to itself. */
  predicate Possible(s: Stacks, e: Event) {
    match e
    case Exit(to) => to in s.live && to != s.running
    case Yield(to) => to in s.live
    case _ => true
  }

  predicate Yields(e: Event) {
    e.Exit? || e.Yield?
  }

  /** The head of `yield`. */
  function Rotate(s: Stacks): Stacks {
    s.(dropped := if s.remove == 0 then s.dropped else s.dropped + {s.remove}, remove := s.next, next := 0)
  }

  function Step(s: Stacks, e: Event): Stacks {
    match e
    case Fork => s.(live := s.live + {s.nextPid}, nextPid := s.nextPid + 1)
    case Exec => s.(next := s.running)
    case Exit(to) => Rotate(s.(next := s.running)).(live := s.live - {s.running}, running := to)
    case Yield(to) => Rotate(s).(running := to)
  }

  /** The next `yield` gives back a stack that is in use, or that was given back before. */
  predicate Harmful(s: Stacks) {
    s.remove != 0 && (s.remove in s.live || s.remove in s.dropped)
  }

  predicate Run(s: Stacks, events: seq<Event>)
    decreases |events|
  {
    events == [] || (Possible(s, events[0]) && Run(Step(s, events[0]), events[1..]))
  }

  /** Every stack is given back once, after its task has ended and left it. */
  predicate Clean(s: Stacks, events: seq<Event>)
    decreases |events|
  {
    events == [] || ((Yields(events[0]) ==> !Harmful(s)) && Clean(Step(s, events[0]), events[1..]))
  }

  // ----- When exec does harm -----

  /** The task goes on, yields at `j`, and somebody yields again at `k`. */
  ghost predicate GoesOn(events: seq<Event>, i: int, j: int, k: int) {
    && -1 <= i < j < k < |events| && events[j].Yield? && Yields(events[k])
    && forall m :: i < m < j ==> !events[m].Exit?
  }

  ghost predicate ExecGoesOn(events: seq<Event>) {
    exists i, j, k :: 0 <= i && GoesOn(events, i, j, k) && events[i].Exec?
  }

  ghost predicate CallerGoesOn(events: seq<Event>) {
    exists j, k :: GoesOn(events, -1, j, k)
  }

  ghost predicate SomeYield(events: seq<Event>) {
    exists k :: 0 <= k < |events| && Yields(events[k])
  }

  /** What holds between the steps of a clean run. */
  predicate Inv(s: Stacks) {
    && 0 < s.running < s.nextPid && s.running in s.live && s.live !! s.dropped
    && (forall p :: p in s.live ==> 0 < p < s.nextPid) && (forall p :: p in s.dropped ==> 0 < p < s.nextPid)
    && 0 <= s.remove < s.nextPid && s.remove !in s.dropped
    && (s.next != 0 ==> s.next == s.running)
  }

  lemma StepInv(s: Stacks, e: Event)
    requires Inv(s) && Possible(s, e) && (Yields(e) ==> !Harmful(s))
    ensures Inv(Step(s, e))
  {}

  // ----- One event more -----

  lemma Later(events: seq<Event>, i: int, j: int, k: int)
    requires events != [] && 1 <= j
    ensures GoesOn(events, i, j, k) <==>
      -1 <= i && GoesOn(events[1..], if i < 0 then -1 else i - 1, j - 1, k - 1) && (i == -1 ==> !events[0].Exit?)
  {}

  lemma ExecLater(events: seq<Event>)
    requires events != []
    ensures ExecGoesOn(events) <==> (events[0].Exec? && CallerGoesOn(events[1..])) || ExecGoesOn(events[1..])
  {
    if i, j, k :| 0 <= i && GoesOn(events, i, j, k) && events[i].Exec? {
      Later(events, i, j, k);
    }
    if j, k :| GoesOn(events[1..], -1, j, k) {
      Later(events, 0, j + 1, k + 1);
    }
    if i, j, k :| 0 <= i && GoesOn(events[1..], i, j, k) && events[1..][i].Exec? {
      Later(events, i + 1, j + 1, k + 1);
    }
  }

  lemma CallerLater(events: seq<Event>)
    requires events != []
    ensures CallerGoesOn(events) <==>
      (events[0].Yield? && SomeYield(events[1..])) || (!events[0].Exit? && CallerGoesOn(events[1..]))
  {
    if j, k :| GoesOn(events, -1, j, k) {
      if j == 0 {
        assert Yields(events[1..][k - 1]);
      } else {
        Later(events, -1, j, k);
      }
    }
    if k :| 0 <= k < |events[1..]| && Yields(events[1..][k]) && events[0].Yield? {
      assert GoesOn(events, -1, 0, k + 1);
    }
    if j, k :| GoesOn(events[1..], -1, j, k) {
      Later(events, -1, j + 1, k + 1);
    }
  }

  lemma YieldLater(events: seq<Event>)
    requires events != []
    ensures SomeYield(events) <==> Yields(events[0]) || SomeYield(events[1..])
  {
    if k :| 0 <= k < |events[1..]| && Yields(events[1..][k]) {
      assert Yields(events[k + 1]);
    }
  }

  lemma CallerYields(events: seq<Event>)
    ensures CallerGoesOn(events) ==> SomeYield(events)
  {}

  /** From any state: what was put down for removal counts, too. */
  lemma {:induction false} CleanFrom(s: Stacks, events: seq<Event>)
    requires Inv(s) && Run(s, events)
    ensures Clean(s, events) <==>
      !ExecGoesOn(events) && (s.next != 0 ==> !CallerGoesOn(events)) && (Harmful(s) ==> !SomeYield(events))
    decreases |events|
  {
    if events != [] {
      hide ExecGoesOn, CallerGoesOn, SomeYield;
      ExecLater(events);
      CallerLater(events);
      YieldLater(events);
      CallerYields(events[1..]);
      if Yields(events[0]) ==> !Harmful(s) {
        StepInv(s, events[0]);
        CleanFrom(Step(s, events[0]), events[1..]);
      }
    }
  }

  /** A run is clean if and only if no task yields after exec, before it ends, and is followed by another `yield`:
      that one gives back the stack of the task. */
  lemma CleanIff(events: seq<Event>)
    requires Run(Boot(), events)
    ensures Clean(Boot(), events) <==> !ExecGoesOn(events)
  {
    CleanFrom(Boot(), events);
  }

  function After(s: Stacks, events: seq<Event>): Stacks
    decreases |events|
  {
    if events == [] then s else After(Step(s, events[0]), events[1..])
  }

  /** The stack of a task that ended has been given back, or is the next one to be. */
  ghost predicate Accounted(s: Stacks) {
    forall p :: 0 < p < s.nextPid && p !in s.live ==> p in s.dropped || p == s.remove
  }

  /** No stack is forgotten, and in a clean run none is given back while its task lives. */
  lemma {:induction false} StacksKept(s: Stacks, events: seq<Event>)
    requires Inv(s) && Accounted(s) && Run(s, events) && Clean(s, events)
    ensures Accounted(After(s, events)) && After(s, events).live !! After(s, events).dropped
    decreases |events|
  {
    if events != [] {
      StepInv(s, events[0]);
      StacksKept(Step(s, events[0]), events[1..]);
    }
  }

  /** Init calls exec, and the timer goes off twice. */
  lemma ExecAndTwoYields() returns (events: seq<Event>)
    ensures Run(Boot(), events) && !Clean(Boot(), events) && events[..1] == [Exec]
  {
    var y := Yield(INIT);
    events := [Exec, y, y];
    var s1 := Step(Boot(), Exec);
    assert Run(Step(s1, y), [y]);
    assert [y, y][1..] == [y] && Run(s1, [y, y]);
    assert events[1..] == [y, y];
    assert GoesOn(events, 0, 1, 2);
    CleanIff(events);
  }
}
