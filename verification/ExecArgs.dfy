/** The program arguments across the user/kernel boundary: user/system.c `exec` packs them
    into the shared page, kernel/process.c `exec_process` finds them again. */
module ExecArgs {
  import opened Wrappers
  import opened Sv39
  import opened CStrings
  import opened Shell

  const TABLE_WORDS: nat := 512       // pointers in one page

  /** The first `k` strings, each with its terminator. */
  function Join(strings: seq<seq<char>>, k: nat): seq<char>
    requires k <= |strings|
  {
    if k == 0 then [] else Join(strings, k - 1) + strings[k - 1] + [NUL]
  }

  function Packed(name: seq<char>, argv: seq<seq<char>>, envp: seq<seq<char>>): seq<char> {
    name + [NUL] + Join(argv, |argv|) + Join(envp, |envp|)
  }

  /** The shared page after `exec`: cut off at a page, zero-filled, and closed by a NUL. */
  ghost predicate IsPageOf(page: seq<char>, packed: seq<char>) {
    && |page| == PGSIZE
    && forall j :: 0 <= j < PGSIZE ==> page[j] == if j < PGSIZE - 1 && j < |packed| then packed[j] else NUL
  }

  /** `s[i]` for a terminated string. */
  function CharAt(s: seq<char>, i: nat): char
    requires i <= |s|
  {
    if i == |s| then NUL else s[i]
  }

  // ----- The packing loop of `exec` -----

  datatype Phase = Name | Argv | Envp

  /** What has been written when the loop is at `count1`, `count2` of its phase. */
  ghost predicate Written(out: seq<char>, phase: Phase, name: seq<char>, argv: seq<seq<char>>, envp: seq<seq<char>>,
                          count1: nat, count2: nat) {
    match phase
    case Name => |out| <= |name| && out == name[..|out|]
    case Argv =>
      && count1 <= |argv| && count2 <= (if count1 < |argv| then |argv[count1]| else 0)
      && out == name + [NUL] + Join(argv, count1) + (if count1 < |argv| then argv[count1][..count2] else [])
    case Envp =>
      && count1 <= |envp| && count2 <= (if count1 < |envp| then |envp[count1]| else 0)
      && if count1 < |envp| then
           out == name + [NUL] + Join(argv, |argv|) + Join(envp, count1) + envp[count1][..count2]
         else
           |Packed(name, argv, envp)| <= |out| && IsPrefixThenNul(out, Packed(name, argv, envp))
  }

  ghost predicate IsPrefixThenNul(out: seq<char>, packed: seq<char>) {
    forall j :: 0 <= j < |out| ==> out[j] == if j < |packed| then packed[j] else NUL
  }

  lemma JoinStep(strings: seq<seq<char>>, k: nat, prefix: seq<char>, count2: nat)
    requires k < |strings| && count2 <= |strings[k]|
    ensures count2 < |strings[k]| ==>
      prefix + Join(strings, k) + strings[k][..count2] + [strings[k][count2]]
      == prefix + Join(strings, k) + strings[k][..count2 + 1]
    ensures count2 == |strings[k]| ==>
      prefix + Join(strings, k) + strings[k][..count2] + [NUL] == prefix + Join(strings, k + 1)
  {}

  ghost predicate AllNulFree(strings: seq<seq<char>>) {
    forall k :: 0 <= k < |strings| ==> NulFree(strings[k])
  }

  /** The bytes that hold the name and the arguments. */
  function ArgBytes(name: seq<char>, argv: seq<seq<char>>): nat {
    |name| + 1 + |Join(argv, |argv|)|
  }

  method Exec(name: seq<char>, argv: seq<seq<char>>, envp: seq<seq<char>>, shared: array<char>)
      returns (argvSize: nat, envpSize: nat)
    requires shared.Length == PGSIZE
    requires NulFree(name) && AllNulFree(argv) && AllNulFree(envp)
    modifies shared
    ensures IsPageOf(shared[..], Packed(name, argv, envp))
    ensures argvSize == if ArgBytes(name, argv) < PGSIZE then |argv| else 0
    ensures envpSize == if |Packed(name, argv, envp)| < PGSIZE then |envp| else 0
    ensures ArgBytes(name, argv) < PGSIZE ==> Holds(shared[..], 0, name) && HoldsArgs(shared[..], name, argv)
  {
    var c := Cursor(Name, 0, 0, 0, 0);
    var i := 0;
    while i < PGSIZE
      invariant 0 <= i <= PGSIZE
      invariant Written(shared[..i], c.phase, name, argv, envp, c.count1, c.count2)
      invariant Sized(i, c, name, argv, envp)
      decreases PGSIZE - i, if c.phase.Envp? then 0 else 1
    {
      if c.phase.Name? {
        c := PackName(name, argv, envp, shared, i, c);
      } else if c.phase.Argv? && c.count1 == |argv| {
        EndOfArgv(shared[..i], name, argv, envp, c.count2);
        c := Cursor(Envp, 0, 0, c.count1, 0);
        i := i - 1;
      } else if c.phase.Argv? {
        c := PackArgv(name, argv, envp, shared, i, c);
      } else {
        c := PackEnvp(name, argv, envp, shared, i, c);
      }
      i := i + 1;
    }
    assert shared[..PGSIZE] == shared[..];
    Finished(shared[..], c.phase, name, argv, envp, c.count1, c.count2);
    shared[PGSIZE - 1] := NUL;
    if ArgBytes(name, argv) < PGSIZE {
      PageHoldsArgs(shared[..], name, argv, envp);
    }
    return c.argvSize, c.envpSize;
  }

  /** The local variables of the packing loop. */
  datatype Cursor = Cursor(phase: Phase, count1: nat, count2: nat, argvSize: nat, envpSize: nat)

  method PackName(name: seq<char>, argv: seq<seq<char>>, envp: seq<seq<char>>, shared: array<char>, i: nat, c: Cursor)
      returns (c': Cursor)
    requires i < shared.Length && NulFree(name) && c.phase.Name?
    requires Written(shared[..i], c.phase, name, argv, envp, c.count1, c.count2) && Sized(i, c, name, argv, envp)
    modifies shared
    ensures Written(shared[..i + 1], c'.phase, name, argv, envp, c'.count1, c'.count2)
    ensures Sized(i + 1, c', name, argv, envp)
  {
    NameStep(shared[..i], name, argv, envp);
    Put(shared, i, CharAt(name, i));
    c' := if CharAt(name, i) == NUL then c.(phase := Argv) else c;
  }

  method PackArgv(name: seq<char>, argv: seq<seq<char>>, envp: seq<seq<char>>, shared: array<char>, i: nat, c: Cursor)
      returns (c': Cursor)
    requires i < shared.Length && AllNulFree(argv) && c.phase.Argv? && c.count1 < |argv|
    requires Written(shared[..i], c.phase, name, argv, envp, c.count1, c.count2) && Sized(i, c, name, argv, envp)
    modifies shared
    ensures Written(shared[..i + 1], c'.phase, name, argv, envp, c'.count1, c'.count2)
    ensures Sized(i + 1, c', name, argv, envp) && c'.phase.Argv?
  {
    ArgvStep(shared[..i], name, argv, envp, c.count1, c.count2);
    Put(shared, i, CharAt(argv[c.count1], c.count2));
    c' := NextChar(argv, c);
  }

  method PackEnvp(name: seq<char>, argv: seq<seq<char>>, envp: seq<seq<char>>, shared: array<char>, i: nat, c: Cursor)
      returns (c': Cursor)
    requires i < shared.Length && AllNulFree(envp) && c.phase.Envp?
    requires Written(shared[..i], c.phase, name, argv, envp, c.count1, c.count2) && Sized(i, c, name, argv, envp)
    modifies shared
    ensures Written(shared[..i + 1], c'.phase, name, argv, envp, c'.count1, c'.count2)
    ensures Sized(i + 1, c', name, argv, envp) && c'.phase.Envp?
  {
    if c.count1 == |envp| {
      Put(shared, i, NUL);
      c' := c.(envpSize := c.count1);
    } else {
      EnvpStep(shared[..i], name, argv, envp, c.count1, c.count2);
      Put(shared, i, CharAt(envp[c.count1], c.count2));
      c' := NextChar(envp, c);
    }
  }

  /** To the next character, or to the next string after a terminator. */
  function NextChar(strings: seq<seq<char>>, c: Cursor): Cursor
    requires c.count1 < |strings| && c.count2 <= |strings[c.count1]|
  {
    if CharAt(strings[c.count1], c.count2) == NUL then c.(count1 := c.count1 + 1, count2 := 0)
    else c.(count2 := c.count2 + 1)
  }

  /** The two counts the kernel is told, as far as they are known. */
  ghost predicate Sized(i: nat, c: Cursor, name: seq<char>, argv: seq<seq<char>>, envp: seq<seq<char>>) {
    match c.phase
    case Name => c == Cursor(Name, 0, 0, 0, 0)
    case Argv => c.argvSize == 0 && c.envpSize == 0
    case Envp =>
      && c.argvSize == |argv| && ArgBytes(name, argv) < PGSIZE
      && c.envpSize == if |Packed(name, argv, envp)| < i then |envp| else 0
  }

  method Put(shared: array<char>, i: nat, c: char)
    requires i < shared.Length
    modifies shared
    ensures shared[..i + 1] == old(shared[..i]) + [c]
  {
    shared[i] := c;
  }

  lemma NameStep(out: seq<char>, name: seq<char>, argv: seq<seq<char>>, envp: seq<seq<char>>)
    requires Written(out, Name, name, argv, envp, 0, 0) && NulFree(name)
    ensures CharAt(name, |out|) != NUL ==> Written(out + [CharAt(name, |out|)], Name, name, argv, envp, 0, 0)
    ensures CharAt(name, |out|) == NUL ==> Written(out + [NUL], Argv, name, argv, envp, 0, 0)
  {}

  lemma ArgvStep(out: seq<char>, name: seq<char>, argv: seq<seq<char>>, envp: seq<seq<char>>, count1: nat, count2: nat)
    requires Written(out, Argv, name, argv, envp, count1, count2) && AllNulFree(argv) && count1 < |argv|
    ensures var c := CharAt(argv[count1], count2);
      if c == NUL then Written(out + [c], Argv, name, argv, envp, count1 + 1, 0)
      else Written(out + [c], Argv, name, argv, envp, count1, count2 + 1)
  {}

  lemma EndOfArgv(out: seq<char>, name: seq<char>, argv: seq<seq<char>>, envp: seq<seq<char>>, count2: nat)
    requires Written(out, Argv, name, argv, envp, |argv|, count2)
    ensures |out| == ArgBytes(name, argv)
    ensures Written(out, Envp, name, argv, envp, 0, 0)
    ensures |out| <= |Packed(name, argv, envp)|
  {}

  lemma EnvpStep(out: seq<char>, name: seq<char>, argv: seq<seq<char>>, envp: seq<seq<char>>, count1: nat, count2: nat)
    requires Written(out, Envp, name, argv, envp, count1, count2) && AllNulFree(envp) && count1 < |envp|
    ensures |out| < |Packed(name, argv, envp)|
    ensures var c := CharAt(envp[count1], count2);
      if c == NUL then Written(out + [c], Envp, name, argv, envp, count1 + 1, 0)
      else Written(out + [c], Envp, name, argv, envp, count1, count2 + 1)
  {
    var prefix := name + [NUL] + Join(argv, |argv|);
    JoinStep(envp, count1, prefix, count2);
    JoinGrows(envp, count1 + 1, |envp|);
    if count2 < |envp[count1]| {
      assert envp[count1][count2] != NUL;
    } else if count1 + 1 == |envp| {
      assert out + [NUL] == Packed(name, argv, envp);
    } else {
      assert envp[count1 + 1][..0] == [];
    }
  }

  /** Later strings only add to what is already joined. */
  lemma {:induction false} JoinGrows(strings: seq<seq<char>>, k: nat, n: nat)
    requires k <= n <= |strings|
    ensures Join(strings, k) <= Join(strings, n)
    decreases n - k
  {
    if k < n {
      JoinGrows(strings, k + 1, n);
      assert Join(strings, k) <= Join(strings, k + 1);
    }
  }

  /** When the page is full, it holds the packed form as far as that reaches. */
  lemma Finished(out: seq<char>, phase: Phase, name: seq<char>, argv: seq<seq<char>>, envp: seq<seq<char>>,
                 count1: nat, count2: nat)
    requires Written(out, phase, name, argv, envp, count1, count2)
    ensures IsPrefixThenNul(out, Packed(name, argv, envp))
    ensures !phase.Envp? ==> |out| <= ArgBytes(name, argv)
  {
    match phase
    case Name =>
    case Argv => FinishedArgv(out, name, argv, envp, count1, count2);
    case Envp => FinishedEnvp(out, name, argv, envp, count1, count2);
  }

  lemma FinishedArgv(out: seq<char>, name: seq<char>, argv: seq<seq<char>>, envp: seq<seq<char>>, count1: nat,
                     count2: nat)
    requires Written(out, Argv, name, argv, envp, count1, count2)
    ensures out <= Packed(name, argv, envp) && |out| <= ArgBytes(name, argv)
  {
    if count1 < |argv| {
      JoinGrows(argv, count1 + 1, |argv|);
      assert out <= name + [NUL] + Join(argv, count1 + 1);
      assert name + [NUL] + Join(argv, count1 + 1) <= Packed(name, argv, envp);
    }
  }

  lemma FinishedEnvp(out: seq<char>, name: seq<char>, argv: seq<seq<char>>, envp: seq<seq<char>>, count1: nat,
                     count2: nat)
    requires Written(out, Envp, name, argv, envp, count1, count2)
    ensures IsPrefixThenNul(out, Packed(name, argv, envp))
  {
    if count1 < |envp| {
      var prefix := name + [NUL] + Join(argv, |argv|);
      JoinGrows(envp, count1 + 1, |envp|);
      assert out <= prefix + Join(envp, count1 + 1);
      assert prefix + Join(envp, count1 + 1) <= Packed(name, argv, envp);
    }
  }

  // ----- The kernel side: `exec_process` -----

  /** The first position from `i` on that holds no NUL, or the end of the page. */
  function PastNuls(page: seq<char>, i: nat): (b: nat)
    requires i <= |page|
    ensures i <= b <= |page| && (b < |page| ==> page[b] != NUL)
    ensures forall j :: i <= j < b ==> page[j] == NUL
    decreases |page| - i
  {
    if i < |page| && page[i] == NUL then PastNuls(page, i + 1) else i
  }

  /** The offsets of `n` consecutive strings from offset `p`; none if they leave the page. */
  function Offsets(page: seq<char>, p: nat, n: nat): Option<seq<nat>>
    decreases n
  {
    if n == 0 then Some([])
    else if p >= |page| || ToNul(page, p) == |page| then None
    else
      match Offsets(page, ToNul(page, p) + 1, n - 1)
      case None => None
      case Some(rest) => Some([p] + rest)
  }

  /** Where `exec_process` believes the arguments start: past the name, then past all NULs. */
  function ArgvStart(page: seq<char>): nat {
    PastNuls(page, ToNul(page, 0))
  }

  /** `n` consecutive strings from offset `p`; none if they leave the page. */
  function Strings(page: seq<char>, p: nat, n: nat): Option<seq<seq<char>>>
    decreases n
  {
    if n == 0 then Some([])
    else if p >= |page| || ToNul(page, p) == |page| then None
    else
      match Strings(page, ToNul(page, p) + 1, n - 1)
      case None => None
      case Some(rest) => Some([CStr(page, p)] + rest)
  }

  /** What the program receives: the strings behind the pointers, or nothing when the kernel
      would read beyond the page. */
  function Received(page: seq<char>, argc: nat): Option<seq<seq<char>>> {
    if ArgvStart(page) == |page| then None else Strings(page, ArgvStart(page), argc)
  }

  /** A terminated string stands at the offset. */
  ghost predicate StringAt(page: seq<char>, p: nat, s: seq<char>) {
    p < |page| && ToNul(page, p) < |page| && CStr(page, p) == s
  }

  lemma {:induction false} StringsBehindOffsets(page: seq<char>, p: nat, n: nat)
    ensures Strings(page, p, n).Some? == Offsets(page, p, n).Some?
    ensures Strings(page, p, n).Some? ==>
      var strings, offsets := Strings(page, p, n).value, Offsets(page, p, n).value;
      && |strings| == |offsets| == n
      && forall k :: 0 <= k < n ==> offsets[k] < |page| && StringAt(page, offsets[k], strings[k])
    decreases n
  {
    if n > 0 && p < |page| && ToNul(page, p) < |page| {
      StringsBehindOffsets(page, ToNul(page, p) + 1, n - 1);
    }
  }

  /** The program's pointer table denotes `argv`: each entry points to its argument in the
      page mapped at `va`, and a null pointer ends the table. */
  ghost predicate Denotes(table: seq<nat>, page: seq<char>, va: nat, argv: seq<seq<char>>) {
    && |argv| < |table| && table[|argv|] == 0
    && forall k :: 0 <= k < |argv| ==> va <= table[k] < va + |page| && StringAt(page, table[k] - va, argv[k])
  }

  /** Where the program finds its arguments: the registers a1 and a2 it starts with. */
  datatype Vectors = Vectors(argv: nat, envp: nat)

  /** What the kernel makes of the page: a table that denotes the strings it finds, unless it would leave the
      page or the table. */
  ghost predicate UnpackedInto(table: seq<nat>, page: seq<char>, va: nat, argc: nat, vectors: Option<Vectors>) {
    && (vectors.Some? <==> Received(page, argc).Some? && argc + 1 < TABLE_WORDS)
    && (vectors.Some? ==>
          && vectors.value == Vectors(va + PGSIZE, va + PGSIZE + 8 * (argc + 1))
          && |Received(page, argc).value| == argc && Denotes(table, page, va, Received(page, argc).value)
          && argc + 1 < |table| && table[argc + 1] == 0)
  }

  /** The argument part of `exec_process` for an empty environment: fills the pointer table
      for the program. `None` stands for a read beyond the shared page or a write beyond the
      table. */
  method UnpackArgv(shared: array<char>, argc: nat, va: nat, table: array<nat>) returns (vectors: Option<Vectors>)
    requires shared.Length == PGSIZE && table.Length == TABLE_WORDS
    modifies table
    ensures UnpackedInto(table[..], shared[..], va, argc, vectors)
  {
    var ptr := SkipName(shared);
    if ptr == PGSIZE {
      return None;
    }
    ghost var page := shared[..];
    StringsBehindOffsets(page, ptr, argc);
    ghost var received := Received(page, argc);
    assert received.Some? ==> |received.value| == argc;
    var filled := FillTable(shared, ptr, argc, va, table);
    assert shared[..] == page;
    if !filled || argc + 1 >= TABLE_WORDS {
      return None;
    }
    table[argc] := 0;
    table[argc + 1] := 0;
    return Some(Vectors(va + PGSIZE, va + PGSIZE + 8 * (argc + 1)));
  }

  /** The two loops that move the pointer from the name to the first argument. */
  method SkipName(shared: array<char>) returns (ptr: nat)
    ensures ptr == ArgvStart(shared[..])
  {
    ptr := FindNul(shared, 0);
    while ptr < shared.Length && shared[ptr] == NUL
      invariant 0 <= ptr <= shared.Length && PastNuls(shared[..], ptr) == ArgvStart(shared[..])
    {
      ptr := ptr + 1;
    }
  }

  /** The loop over the arguments. */
  method FillTable(shared: array<char>, start: nat, argc: nat, va: nat, table: array<nat>) returns (filled: bool)
    requires start < shared.Length
    modifies table
    ensures filled <==> Offsets(shared[..], start, argc).Some? && argc <= table.Length
    ensures filled ==>
      var offsets := Offsets(shared[..], start, argc).value;
      |offsets| == argc && forall k :: 0 <= k < argc ==> table[k] == va + offsets[k]
  {
    ghost var page := shared[..];
    ghost var all := Offsets(page, start, argc);
    var argv, i := start, 0;
    OffsetsLength(page, start, argc);
    while i < argc
      invariant 0 <= i <= argc && 0 <= argv <= shared.Length && i <= table.Length
      invariant Remaining(page, argv, argc - i, all, i)
      invariant all.Some? ==> forall k :: 0 <= k < i ==> table[k] == va + all.value[k]
    {
      RemainingStep(page, argv, argc - i, all, i);
      if i == table.Length || argv == shared.Length {
        return false;
      }
      table[i] := va + argv;
      argv := FindNul(shared, argv);
      if argv == shared.Length {
        return false;
      }
      argv := argv + 1;
      i := i + 1;
    }
    return true;
  }

  lemma RemainingStep(page: seq<char>, p: nat, n: nat, all: Option<seq<nat>>, done: nat)
    requires Remaining(page, p, n, all, done) && n > 0
    ensures p >= |page| || ToNul(page, p) == |page| ==> all == None
    ensures p < |page| && ToNul(page, p) < |page| ==>
      && Remaining(page, ToNul(page, p) + 1, n - 1, all, done + 1)
      && (all.Some? ==> done < |all.value| && all.value[done] == p)
  {}

  method FindNul(shared: array<char>, from: nat) returns (e: nat)
    requires from <= shared.Length
    ensures e == ToNul(shared[..], from)
  {
    e := from;
    while e < shared.Length && shared[e] != NUL
      invariant from <= e <= shared.Length && ToNul(shared[..], e) == ToNul(shared[..], from)
    {
      e := e + 1;
    }
  }

  lemma {:induction false} OffsetsLength(page: seq<char>, p: nat, n: nat)
    ensures Offsets(page, p, n).Some? ==> |Offsets(page, p, n).value| == n
    decreases n
  {
    if n > 0 && p < |page| && ToNul(page, p) < |page| {
      OffsetsLength(page, ToNul(page, p) + 1, n - 1);
    }
  }

  /** The strings from `p` on are the last `n` of all the strings. */
  ghost predicate Remaining(page: seq<char>, p: nat, n: nat, all: Option<seq<nat>>, done: nat) {
    var rest := Offsets(page, p, n);
    && rest.Some? == all.Some?
    && (all.Some? ==> done <= |all.value| && all.value[done..] == rest.value)
  }

  // ----- The round trip -----

  /** Argument `k` of the packed form starts where the earlier ones end. */
  function ArgOffset(name: seq<char>, argv: seq<seq<char>>, k: nat): nat
    requires k <= |argv|
  {
    |name| + 1 + |Join(argv, k)|
  }

  /** The page holds every argument at its offset. */
  ghost predicate HoldsArgs(page: seq<char>, name: seq<char>, argv: seq<seq<char>>) {
    forall k {:trigger ArgOffset(name, argv, k)} :: 0 <= k < |argv| ==> Holds(page, ArgOffset(name, argv, k), argv[k])
  }

  lemma PageHoldsArg(page: seq<char>, name: seq<char>, argv: seq<seq<char>>, envp: seq<seq<char>>, k: nat)
    requires IsPageOf(page, Packed(name, argv, envp)) && ArgBytes(name, argv) < PGSIZE && k < |argv|
    ensures Holds(page, ArgOffset(name, argv, k), argv[k])
  {
    var packed := Packed(name, argv, envp);
    var p := ArgOffset(name, argv, k);
    JoinGrows(argv, k + 1, |argv|);
    var upto := name + [NUL] + Join(argv, k + 1);
    assert upto <= packed;
    assert upto == name + [NUL] + Join(argv, k) + argv[k] + [NUL];
    assert upto[p..p + |argv[k]|] == argv[k] && upto[p + |argv[k]|] == NUL;
    assert forall j :: 0 <= j < |upto| ==> page[j] == upto[j];
  }

  lemma PageHoldsArgs(page: seq<char>, name: seq<char>, argv: seq<seq<char>>, envp: seq<seq<char>>)
    requires IsPageOf(page, Packed(name, argv, envp)) && ArgBytes(name, argv) < PGSIZE
    ensures HoldsArgs(page, name, argv)
    ensures Holds(page, 0, name)
  {
    forall k | 0 <= k < |argv|
      ensures Holds(page, ArgOffset(name, argv, k), argv[k])
    {
      PageHoldsArg(page, name, argv, envp, k);
    }
    var packed := Packed(name, argv, envp);
    assert packed[..|name|] == name && packed[|name|] == NUL;
    assert page[0..0 + |name|] == name;
  }

  /** The environment stands behind the arguments, if there is room for all of it. */
  lemma PageHoldsEnv(page: seq<char>, name: seq<char>, argv: seq<seq<char>>, envp: seq<seq<char>>, k: nat)
    requires IsPageOf(page, Packed(name, argv, envp)) && |Packed(name, argv, envp)| < PGSIZE && k < |envp|
    ensures Holds(page, ArgBytes(name, argv) + |Join(envp, k)|, envp[k])
  {
    hide IsPageOf, Join;
    var front := name + [NUL] + Join(argv, |argv|);
    JoinGrows(envp, k + 1, |envp|);
    Prefixed(front, Join(envp, k + 1), Join(envp, |envp|));
    JoinNext(front, envp, k);
    HoldsBehind(page, Packed(name, argv, envp), front + Join(envp, k), envp[k]);
  }

  lemma JoinNext(front: seq<char>, strings: seq<seq<char>>, k: nat)
    requires k < |strings|
    ensures front + Join(strings, k + 1) == front + Join(strings, k) + strings[k] + [NUL]
  {}

  lemma Prefixed(front: seq<char>, s: seq<char>, t: seq<char>)
    requires s <= t
    ensures front + s <= front + t
  {}

  lemma HoldsBehind(page: seq<char>, packed: seq<char>, front: seq<char>, s: seq<char>)
    requires IsPageOf(page, packed) && |packed| < PGSIZE && front + s + [NUL] <= packed
    ensures Holds(page, |front|, s)
  {
    var upto := front + s + [NUL];
    assert forall j :: 0 <= j < |upto| ==> page[j] == upto[j];
    assert upto[|front|..|front| + |s|] == s && upto[|front| + |s|] == NUL;
  }

  lemma StringsCons(page: seq<char>, p: nat, n: nat, q: nat, m: nat, all: seq<seq<char>>)
    requires n == m + 1 && p < |page| && ToNul(page, p) < |page| && q == ToNul(page, p) + 1
    requires all != [] && CStr(page, p) == all[0] && Strings(page, q, m) == Some(all[1..])
    ensures Strings(page, p, n) == Some(all)
  {
    assert all == [all[0]] + all[1..];
  }

  lemma StringsStep(page: seq<char>, name: seq<char>, argv: seq<seq<char>>, k: nat)
    requires k < |argv| && Holds(page, ArgOffset(name, argv, k), argv[k]) && NulFree(argv[k])
    requires Strings(page, ArgOffset(name, argv, k + 1), |argv| - (k + 1)) == Some(argv[k + 1..])
    ensures Strings(page, ArgOffset(name, argv, k), |argv| - k) == Some(argv[k..])
  {
    ReadBack(page, ArgOffset(name, argv, k), argv[k]);
    assert ArgOffset(name, argv, k + 1) == ArgOffset(name, argv, k) + |argv[k]| + 1;
    assert argv[k..][1..] == argv[k + 1..];
    StringsCons(page, ArgOffset(name, argv, k), |argv| - k, ArgOffset(name, argv, k + 1), |argv| - (k + 1), argv[k..]);
  }

  lemma {:induction false} StringsAreArgs(page: seq<char>, name: seq<char>, argv: seq<seq<char>>, k: nat)
    requires HoldsArgs(page, name, argv) && AllNulFree(argv) && k <= |argv|
    ensures Strings(page, ArgOffset(name, argv, k), |argv| - k) == Some(argv[k..])
    decreases |argv| - k
  {
    if k == |argv| {
      assert argv[k..] == [];
    } else {
      StringsAreArgs(page, name, argv, k + 1);
      StringsStep(page, name, argv, k);
    }
  }

  lemma FirstArgument(page: seq<char>, name: seq<char>, argv: seq<seq<char>>)
    requires Holds(page, 0, name) && NulFree(name) && HoldsArgs(page, name, argv) && AllNulFree(argv)
    requires argv != [] && argv[0] != []
    ensures ArgvStart(page) == |name| + 1 < |page|
  {
    ReadBack(page, 0, name);
    var p := |name| + 1;
    assert ArgOffset(name, argv, 0) == p && Holds(page, p, argv[0]);
    assert page[p..p + |argv[0]|][0] == argv[0][0];
    assert NulFree(argv[0]) && argv[0][0] != NUL;
    assert PastNuls(page, |name|) == PastNuls(page, p);
  }

  /** The arguments come back if the first one is not empty. */
  lemma RoundTrip(page: seq<char>, name: seq<char>, argv: seq<seq<char>>, envp: seq<seq<char>>)
    requires IsPageOf(page, Packed(name, argv, envp)) && ArgBytes(name, argv) < PGSIZE
    requires NulFree(name) && AllNulFree(argv)
    requires argv != [] && argv[0] != []
    ensures Received(page, |argv|) == Some(argv)
  {
    PageHoldsArgs(page, name, argv, envp);
    FirstArgument(page, name, argv);
    StringsAreArgs(page, name, argv, 0);
    assert argv[0..] == argv;
  }

  /** With an empty first argument, the string found first is not empty, so it is another one. */
  lemma EmptyFirstArgument(page: seq<char>, argc: nat)
    requires argc > 0 && Received(page, argc).Some?
    ensures |Received(page, argc).value| == argc && Received(page, argc).value[0] != []
  {
    var p := ArgvStart(page);
    StringsBehindOffsets(page, p, argc);
    assert Received(page, argc).value[0] == CStr(page, p);
  }

  /** Exactly when the kernel recovers the arguments that `exec` packed: there is a first
      argument and it is not empty. The kernel skips every NUL after the name, so an empty
      first argument is mistaken for padding. */
  lemma RoundTripIff(page: seq<char>, name: seq<char>, argv: seq<seq<char>>)
    requires IsPageOf(page, Packed(name, argv, [])) && ArgBytes(name, argv) < PGSIZE
    requires NulFree(name) && AllNulFree(argv)
    ensures Received(page, |argv|) == Some(argv) <==> argv != [] && argv[0] != []
  {
    if argv != [] && argv[0] != [] {
      RoundTrip(page, name, argv, []);
    } else if argv == [] {
      PageHoldsArgs(page, name, argv, []);
      ReadBack(page, 0, name);
      assert Packed(name, argv, []) == name + [NUL];
      assert forall j :: |name| <= j < PGSIZE ==> page[j] == NUL;
    } else if Received(page, |argv|).Some? {
      EmptyFirstArgument(page, |argv|);
    }
  }

  // ----- From the command line to the program -----

  lemma WordsAreArguments(line: seq<char>, delims: set<char>)
    requires NulFree(line)
    ensures AllNulFree(Words(line, delims))
    ensures forall k :: 0 <= k < |Words(line, delims)| ==> Words(line, delims)[k] != []
  {}

  /** What `exec` leaves: the arguments cut off at a page, and their number, or 0 if they do not fit. */
  ghost predicate PackedInto(page: seq<char>, argc: nat, name: seq<char>, argv: seq<seq<char>>) {
    && IsPageOf(page, Packed(name, argv, [])) && argc == (if ArgBytes(name, argv) < PGSIZE then |argv| else 0)
    && (argv != [] && argv[0] != [] && argc > 0 ==> Received(page, argc) == Some(argv))
  }

  /** `exec` with an empty environment leaves a page from which the kernel recovers `argv`. */
  method PackProgram(name: seq<char>, argv: seq<seq<char>>, shared: array<char>) returns (argc: nat)
    requires NulFree(name) && AllNulFree(argv) && shared.Length == PGSIZE
    modifies shared
    ensures PackedInto(shared[..], argc, name, argv)
  {
    var envpSize;
    argc, envpSize := Exec(name, argv, [], shared);
    if argv != [] && argv[0] != [] && argc > 0 {
      RoundTrip(shared[..], name, argv, []);
    }
  }

  /** The shell's view of a parsed line: the strings behind its pointers. */
  method SplitLine(tok: Tokenizer, delimiters: seq<char>, ghost line: seq<char>)
      returns (argv: seq<seq<char>>, path: seq<char>)
    requires Unread(tok.buf[..], line, 0)
    modifies tok, tok.buf
    ensures argv == Words(line, Chars(delimiters))
    ensures path == if argv == [] then [] else ['/'] + argv[0]
    ensures NulFree(path) && AllNulFree(argv) && (argv != [] ==> argv[0] != [])
  {
    var pointers;
    pointers, path := ParseLine(tok, delimiters, line);
    var text := tok.buf[..];
    argv := seq(|pointers|, k requires 0 <= k < |pointers| && 0 <= pointers[k] <= |text| => CStr(text, pointers[k]));
    WordsAreArguments(line, Chars(delimiters));
    assert argv != [] ==> NulFree(argv[0]);
  }
}
