/** The command-line parser of the shell: user/ulib.h `strtok` and the parse loop of
    user/sh.c. Pointers into the line buffer are offsets, `NIL` is the null pointer. */
module Shell {
  import opened CStrings

  const NIL: int := -1
  const DELIMITERS: seq<char> := [' ', '\t', '\r', '\n']

  function Chars(s: seq<char>): set<char> {
    set c | c in s
  }

  method StringIncludes(s: seq<char>, c: char) returns (found: bool)
    ensures found <==> c in Chars(s)
  {
    var i := 0;
    while i < |s|
      invariant i <= |s| && c !in s[..i]
    {
      if s[i] == c {
        return true;
      }
      i := i + 1;
    }
    return false;
  }

  /** The buffer still holds the unread part of the line, which starts at `last`. */
  ghost predicate Unread(buf: seq<char>, line: seq<char>, last: int) {
    && |line| < |buf| && NulFree(line)
    && (last == NIL || 0 <= last <= |line|)
    && (last != NIL ==> buf[|line|] == NUL && forall j :: last <= j < |line| ==> buf[j] == line[j])
  }

  class Tokenizer {
    const buf: array<char>
    var last: int            // the static variable of `strtok`

    constructor (buffer: array<char>)
      ensures buf == buffer && last == NIL
    {
      buf, last := buffer, NIL;
    }

    /** Skips leading delimiters. */
    method Skip(delims: seq<char>, ghost line: seq<char>)
      requires last != NIL && Unread(buf[..], line, last)
      modifies this
      ensures last == SkipDelims(line, Chars(delims), old(last))
    {
      ghost var b := SkipDelims(line, Chars(delims), last);
      while true
        invariant 0 <= last <= |line| && SkipDelims(line, Chars(delims), last) == b
        decreases |line| - last
      {
        assert last < |line| ==> buf[..][last] == line[last];
        assert last == |line| ==> buf[..][last] == NUL;
        if buf[last] == NUL { break; }
        var delim := StringIncludes(delims, buf[last]);
        if !delim { break; }
        last := last + 1;
      }
    }

    /** Scans to the delimiter after a word; true when there is one. */
    method Scan(delims: seq<char>, ghost line: seq<char>) returns (found: bool)
      requires last != NIL && Unread(buf[..], line, last)
      modifies this
      ensures last == WordEnd(line, Chars(delims), old(last))
      ensures found <==> last < |line|
    {
      ghost var e := WordEnd(line, Chars(delims), last);
      while true
        invariant 0 <= last <= |line| && WordEnd(line, Chars(delims), last) == e
        decreases |line| - last
      {
        assert last < |line| ==> buf[..][last] == line[last];
        assert last == |line| ==> buf[..][last] == NUL;
        if buf[last] == NUL { return false; }
        var delim := StringIncludes(delims, buf[last]);
        if delim { return true; }
        last := last + 1;
      }
    }

    method Strtok(str: int, delims: seq<char>, ghost line: seq<char>) returns (ret: int)
      requires Unread(buf[..], line, if str != NIL then str else last)
      modifies this, buf
      ensures Unread(buf[..], line, last)
      ensures var from := if str != NIL then str else old(last);
        if from == NIL then
          ret == NIL && last == NIL && buf[..] == old(buf[..])
        else
          var b := SkipDelims(line, Chars(delims), from);
          if b == |line| then
            ret == NIL && last == NIL && buf[..] == old(buf[..])
          else
            var e := WordEnd(line, Chars(delims), b);
            && ret == b
            && buf[..] == old(buf[..])[e := NUL]
            && last == After(line, e)
    {
      if str != NIL {
        last := str;
      }
      if last == NIL {
        return NIL;
      }
      Skip(delims, line);
      ret := last;
      ghost var b := last;
      var found := Scan(delims, line);
      if found {
        buf[last] := NUL;
        last := last + 1;
        return ret;
      }
      assert last == |line| && buf[..][|line|] == NUL;
      last := NIL;
      if buf[ret] == NUL {
        assert b < |line| ==> buf[..][b] == line[b];
        return NIL;
      }
    }
  }

  // ----- The words still to come, and the words already cut out -----

  function Rest(line: seq<char>, delims: set<char>, last: int): seq<Span>
    requires last == NIL || 0 <= last <= |line|
  {
    if last == NIL then [] else Spans(line, delims, last)
  }

  ghost predicate CutOut(buf: seq<char>, line: seq<char>, s: Span) {
    && s.start < s.end <= |line| < |buf|
    && buf[s.start..s.end] == line[s.start..s.end]
    && buf[s.end] == NUL
  }

  /** The first `c` words are cut out and `strtok` will find the others. */
  ghost predicate Progress(buf: seq<char>, line: seq<char>, delims: set<char>, c: nat, last: int) {
    var all := Spans(line, delims, 0);
    && Unread(buf, line, last)
    && c <= |all| && Rest(line, delims, last) == all[c..]
    && forall k :: 0 <= k < c ==> CutOut(buf, line, all[k])
  }

  /** Where `strtok` leaves `last` after a word that ends at `e`. */
  function After(line: seq<char>, e: nat): int {
    if e == |line| then NIL else e + 1
  }

  lemma NextSpan(line: seq<char>, delims: set<char>, from: nat, b: nat, e: nat)
    requires from <= |line| && b == SkipDelims(line, delims, from) && e == WordEnd(line, delims, b)
    ensures b == |line| ==> Rest(line, delims, from) == []
    ensures b < |line| ==> b < e <= |line|
    ensures b < |line| ==> Rest(line, delims, from) == [Span(b, e)] + Rest(line, delims, After(line, e))
  {
    if b < |line| {
      SpansUnfold(line, delims, from, b, e);
      if e < |line| {
        SpansSkip(line, delims, e);
      } else {
        SpansEnd(line, delims);
      }
    }
  }

  /** One call of `strtok` cuts out the next word and keeps the earlier ones. */
  lemma Advance(buf: seq<char>, line: seq<char>, delims: set<char>, c: nat, last: int, b: nat, e: nat)
    requires Progress(buf, line, delims, c, last) && last != NIL
    requires b == SkipDelims(line, delims, last) < |line| && e == WordEnd(line, delims, b)
    ensures c < |Spans(line, delims, 0)| && Spans(line, delims, 0)[c] == Span(b, e)
    ensures Unread(buf[e := NUL], line, After(line, e)) ==> Progress(buf[e := NUL], line, delims, c + 1, After(line, e))
  {
    var all := Spans(line, delims, 0);
    NextSpan(line, delims, last, b, e);
    assert all[c..][0] == Span(b, e) && all[c..][1..] == all[c + 1..];
    forall k | 0 <= k < c
      ensures CutOut(buf[e := NUL], line, all[k])
    {
      SpansInOrder(line, delims, k, c);
      KeepCut(buf, line, all[k], e);
    }
    NewCut(buf, line, last, b, e);
  }

  lemma KeepCut(buf: seq<char>, line: seq<char>, s: Span, e: nat)
    requires CutOut(buf, line, s) && s.end < e < |buf|
    ensures CutOut(buf[e := NUL], line, s)
  {}

  lemma NewCut(buf: seq<char>, line: seq<char>, last: nat, b: nat, e: nat)
    requires Unread(buf, line, last) && last <= b < e <= |line|
    ensures CutOut(buf[e := NUL], line, Span(b, e))
  {}

  /** The parse loop of `execute_line`: where the words start, and the path of the program. */
  method ParseLine(tok: Tokenizer, delimiters: seq<char>, ghost line: seq<char>)
      returns (argv: seq<int>, path: seq<char>)
    requires Unread(tok.buf[..], line, 0)
    modifies tok, tok.buf
    ensures |argv| == |Words(line, Chars(delimiters))|
    ensures forall k :: 0 <= k < |argv| ==>
      0 <= argv[k] < tok.buf.Length && CStr(tok.buf[..], argv[k]) == Words(line, Chars(delimiters))[k]
    ensures path == if argv == [] then [] else ['/'] + Words(line, Chars(delimiters))[0]
  {
    argv, path := [], [];
    ghost var delims := Chars(delimiters);
    ghost var all := Spans(line, delims, 0);
    var parameter := NextWord(tok, 0, delimiters, line, 0, 0);
    while parameter != NIL
      invariant Collected(tok.buf[..], line, delims, argv, parameter, tok.last)
      invariant path == if argv == [] then [] else ['/'] + Words(line, delims)[0]
      decreases |all| - |argv|
    {
      if path == [] {
        CutOutReads(tok.buf[..], line, all[0]);
        path := ['/'] + CStr(tok.buf[..], parameter);
      }
      argv, parameter := Collect(tok, delimiters, argv, parameter, line);
    }
    forall k | 0 <= k < |argv|
      ensures 0 <= argv[k] < tok.buf.Length && CStr(tok.buf[..], argv[k]) == Words(line, delims)[k]
    {
      CutOutReads(tok.buf[..], line, all[k]);
    }
  }

  /** The step of the parse loop: stores the word and asks `strtok` for the next one. */
  method Collect(tok: Tokenizer, delimiters: seq<char>, argv: seq<int>, parameter: int, ghost line: seq<char>)
      returns (argv': seq<int>, next: int)
    requires parameter != NIL && Collected(tok.buf[..], line, Chars(delimiters), argv, parameter, tok.last)
    modifies tok, tok.buf
    ensures argv' == argv + [parameter]
    ensures Collected(tok.buf[..], line, Chars(delimiters), argv', next, tok.last)
  {
    StartsSnoc(argv, Spans(line, Chars(delimiters), 0), parameter);
    argv' := argv + [parameter];
    next := NextWord(tok, NIL, delimiters, line, |argv'|, tok.last);
  }

  ghost predicate Starts(argv: seq<int>, all: seq<Span>) {
    |argv| <= |all| && forall k :: 0 <= k < |argv| ==> argv[k] == all[k].start
  }

  lemma StartsSnoc(argv: seq<int>, all: seq<Span>, parameter: int)
    requires Starts(argv, all) && |argv| < |all| && parameter == all[|argv|].start
    ensures Starts(argv + [parameter], all)
  {}

  /** The words before `parameter` are collected, the others are still to come. */
  ghost predicate Collected(buf: seq<char>, line: seq<char>, delims: set<char>, argv: seq<int>, parameter: int,
                            last: int) {
    var all := Spans(line, delims, 0);
    && |argv| <= |all|
    && Starts(argv, all)
    && (if parameter == NIL then |argv| == |all| else |argv| < |all| && parameter == all[|argv|].start)
    && Progress(buf, line, delims, if parameter == NIL then |argv| else |argv| + 1, last)
  }

  /** `strtok`, in terms of the words of the line. */
  method NextWord(tok: Tokenizer, str: int, delimiters: seq<char>, ghost line: seq<char>, ghost c: nat, ghost from: int)
      returns (ret: int)
    requires from == if str != NIL then str else tok.last
    requires Progress(tok.buf[..], line, Chars(delimiters), c, from)
    modifies tok, tok.buf
    ensures var all := Spans(line, Chars(delimiters), 0);
      && Progress(tok.buf[..], line, Chars(delimiters), if c < |all| then c + 1 else c, tok.last)
      && (if c < |all| then ret == all[c].start else ret == NIL)
  {
    if from != NIL {
      ghost var b := SkipDelims(line, Chars(delimiters), from);
      ghost var e := WordEnd(line, Chars(delimiters), b);
      NextSpan(line, Chars(delimiters), from, b, e);
      if b < |line| {
        Advance(tok.buf[..], line, Chars(delimiters), c, from, b, e);
      }
    }
    ret := tok.Strtok(str, delimiters, line);
  }

  lemma CutOutReads(buf: seq<char>, line: seq<char>, s: Span)
    requires CutOut(buf, line, s) && NulFree(line)
    ensures CStr(buf, s.start) == line[s.start..s.end]
  {
    ReadBack(buf, s.start, line[s.start..s.end]);
  }
}
