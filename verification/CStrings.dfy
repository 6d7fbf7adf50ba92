/** C strings in character buffers, and the words of a command line. */
module CStrings {

  const NUL: char := '\0'

  ghost predicate NulFree(s: seq<char>) {
    forall i :: 0 <= i < |s| ==> s[i] != NUL
  }

  /** The first position from `i` on that holds a NUL, or the end of the buffer. */
  function ToNul(mem: seq<char>, i: nat): (e: nat)
    requires i <= |mem|
    ensures i <= e <= |mem| && (e < |mem| ==> mem[e] == NUL)
    ensures forall j :: i <= j < e ==> mem[j] != NUL
    decreases |mem| - i
  {
    if i < |mem| && mem[i] != NUL then ToNul(mem, i + 1) else i
  }

  /** The string a pointer to offset `p` denotes: everything before the next NUL. */
  function CStr(mem: seq<char>, p: nat): seq<char>
    requires p <= |mem|
  {
    mem[p..ToNul(mem, p)]
  }

  /** The buffer holds the terminated string `s` at offset `p`. */
  ghost predicate Holds(mem: seq<char>, p: nat, s: seq<char>) {
    p + |s| < |mem| && mem[p..p + |s|] == s && mem[p + |s|] == NUL
  }

  lemma ReadBack(mem: seq<char>, p: nat, s: seq<char>)
    requires Holds(mem, p, s) && NulFree(s)
    ensures ToNul(mem, p) == p + |s|
    ensures CStr(mem, p) == s
  {}

  // ----- Words -----

  /** The first position from `i` on that holds no delimiter. */
  function SkipDelims(line: seq<char>, delims: set<char>, i: nat): (b: nat)
    requires i <= |line|
    ensures i <= b <= |line| && (b < |line| ==> line[b] !in delims)
    ensures forall j :: i <= j < b ==> line[j] in delims
    decreases |line| - i
  {
    if i < |line| && line[i] in delims then SkipDelims(line, delims, i + 1) else i
  }

  /** The first position from `i` on that holds a delimiter. */
  function WordEnd(line: seq<char>, delims: set<char>, i: nat): (e: nat)
    requires i <= |line|
    ensures i <= e <= |line| && (e < |line| ==> line[e] in delims)
    ensures forall j :: i <= j < e ==> line[j] !in delims
    decreases |line| - i
  {
    if i < |line| && line[i] !in delims then WordEnd(line, delims, i + 1) else i
  }

  datatype Span = Span(start: nat, end: nat)

  function Spans(line: seq<char>, delims: set<char>, i: nat): (spans: seq<Span>)
    requires i <= |line|
    ensures forall k :: 0 <= k < |spans| ==> i <= spans[k].start < spans[k].end <= |line|
    decreases |line| - i
  {
    var b := SkipDelims(line, delims, i);
    if b == |line| then []
    else
      var e := WordEnd(line, delims, b);
      [Span(b, e)] + Spans(line, delims, e)
  }

  function Words(line: seq<char>, delims: set<char>): seq<seq<char>> {
    var spans := Spans(line, delims, 0);
    seq(|spans|, k requires 0 <= k < |spans| => line[spans[k].start..spans[k].end])
  }

  lemma SpansSkip(line: seq<char>, delims: set<char>, e: nat)
    requires e < |line| && line[e] in delims
    ensures Spans(line, delims, e) == Spans(line, delims, e + 1)
  {}

  lemma SpansEnd(line: seq<char>, delims: set<char>)
    ensures Spans(line, delims, |line|) == []
  {}

  lemma SpansUnfold(line: seq<char>, delims: set<char>, from: nat, b: nat, e: nat)
    requires from <= |line| && b == SkipDelims(line, delims, from) < |line| && e == WordEnd(line, delims, b)
    ensures Spans(line, delims, from) == [Span(b, e)] + Spans(line, delims, e)
  {}

  ghost predicate MaximalRun(line: seq<char>, delims: set<char>, s: Span) {
    && s.start < s.end <= |line|
    && (forall j :: s.start <= j < s.end ==> line[j] !in delims)
    && (s.start > 0 ==> line[s.start - 1] in delims)
    && (s.end < |line| ==> line[s.end] in delims)
  }

  /** The words are exactly the maximal delimiter-free runs of the line, in order. */
  lemma {:induction false} SpansAreMaximalRuns(line: seq<char>, delims: set<char>, i: nat)
    requires i <= |line| && (i == 0 || i == |line| || line[i] in delims || line[i - 1] in delims)
    ensures forall s :: s in Spans(line, delims, i) <==> MaximalRun(line, delims, s) && i <= s.start
    ensures forall k, l :: 0 <= k < l < |Spans(line, delims, i)| ==>
      Spans(line, delims, i)[k].end < Spans(line, delims, i)[l].start
    decreases |line| - i
  {
    var b := SkipDelims(line, delims, i);
    if b < |line| {
      var e := WordEnd(line, delims, b);
      SpansAreMaximalRuns(line, delims, e);
      var rest := Spans(line, delims, e);
      forall s
        ensures s in Spans(line, delims, i) <==> MaximalRun(line, delims, s) && i <= s.start
      {
        assert s in Spans(line, delims, i) <==> s == Span(b, e) || s in rest;
        if MaximalRun(line, delims, s) && i <= s.start {
          FirstRun(line, delims, i, s);
        }
        assert MaximalRun(line, delims, Span(b, e));
      }
      forall l | 0 <= l < |rest|
        ensures e < rest[l].start
      {
        assert rest[l] in rest;
      }
    } else {
      forall s: Span | i <= s.start < |line|
        ensures !MaximalRun(line, delims, s)
      {
        assert line[s.start] in delims;
      }
    }
  }

  lemma FirstRun(line: seq<char>, delims: set<char>, i: nat, s: Span)
    requires i <= |line| && SkipDelims(line, delims, i) < |line|
    requires MaximalRun(line, delims, s) && i <= s.start
    ensures var b := SkipDelims(line, delims, i); var e := WordEnd(line, delims, b);
            s == Span(b, e) || e <= s.start
  {
    var b := SkipDelims(line, delims, i);
    var e := WordEnd(line, delims, b);
    assert line[s.start] !in delims;
    assert b <= s.start;
    if s.start < e {
      assert s.start > 0 ==> line[s.start - 1] in delims;
      assert !(b < s.start);
      assert !(s.end < e);
      assert !(e < s.end);
    }
  }

  /** Words come in order, with a delimiter in between. */
  lemma SpansInOrder(line: seq<char>, delims: set<char>, k: nat, l: nat)
    requires k < l < |Spans(line, delims, 0)|
    ensures Spans(line, delims, 0)[k].end < Spans(line, delims, 0)[l].start
  {
    SpansAreMaximalRuns(line, delims, 0);
  }
}
