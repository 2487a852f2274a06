/** The output of a git process arrives in pieces and is handed on line by line. */
module LineSplitter {
  import opened Bytes


  /** The index of the first newline; the search stops at a NUL, as in a C string. */
  function FindNewline(s: string, i: nat): (p: nat)
    requires i <= |s|
    ensures i <= p <= |s|
    decreases |s| - i
  {
    if i == |s| || s[i] == NUL then |s| else if s[i] == '\n' then i else FindNewline(s, i + 1)
  }

  /** The complete lines of a text, and what is left after them. */
  function Cut(s: string): (seq<string>, string)
    decreases |s|
  {
    var p := FindNewline(s, 0);
    if p == |s| then ([], s)
    else ([s[..p]] + Cut(s[p + 1..]).0, Cut(s[p + 1..]).1)
  }

  /** Everything handed on by the end of the output: a last line only if it is not empty. */
  function Delivered(s: string): seq<string> {
    var (lines, rest) := Cut(s);
    if rest == [] then lines else lines + [rest]
  }

  predicate Accepts(buffer: string, data: string) {
    0 < |data| < INT_MAX && |buffer| + |data| <= INT_MAX
  }

  class GitCallCb {
    var buffer: string
    var received: seq<string>   // the lines handed on so far

    constructor ()
      ensures buffer == [] && received == []
    {
      buffer, received := [], [];
    }

    method OnOutputData(data: string)
      modifies this
      ensures !Accepts(old(buffer), data) ==> buffer == old(buffer) && received == old(received)
      ensures Accepts(old(buffer), data) ==>
                var (lines, rest) := Cut(old(buffer) + data);
                received == old(received) + lines && buffer == rest
    {
      if |data| == 0 || |data| >= INT_MAX {
        return;
      }
      if |buffer| + |data| > INT_MAX {
        return;
      }
      buffer := buffer + data;
      ghost var whole := buffer;
      var eolPos := Find();
      while eolPos >= 0
        invariant eolPos == (if FindNewline(buffer, 0) == |buffer| then -1 else FindNewline(buffer, 0))
        invariant |buffer| <= |whole|
        invariant old(received) + Cut(whole).0 == received + Cut(buffer).0 && Cut(whole).1 == Cut(buffer).1
        decreases |buffer|, eolPos
      {
        var line := buffer[..eolPos];
        ghost var before := buffer;
        buffer := buffer[eolPos + 1..];
        received := received + [line];
        assert Cut(before).0 == [line] + Cut(buffer).0;
        eolPos := Find();
      }
      assert Cut(buffer) == ([], buffer);
    }

    method Find() returns (p: int)
      ensures p == if FindNewline(buffer, 0) == |buffer| then -1 else FindNewline(buffer, 0)
    {
      var i := 0;
      while i < |buffer| && buffer[i] != NUL && buffer[i] != '\n'
        invariant i <= |buffer| && FindNewline(buffer, 0) == FindNewline(buffer, i)
      {
        i := i + 1;
      }
      p := if i < |buffer| && buffer[i] == '\n' then i else -1;
    }

    method OnEnd()
      modifies this
      ensures received == (if old(buffer) == [] then old(received) else old(received) + [old(buffer)]) && buffer == []
    {
      if |buffer| > 0 {
        received := received + [buffer];
      }
      buffer := [];
    }
  }

  // ---------------------------------------------------------------- pieces do not matter

  function Concat(chunks: seq<string>): string {
    if |chunks| == 0 then [] else Concat(chunks[..|chunks| - 1]) + chunks[|chunks| - 1]
  }

  lemma {:induction false} FindInLonger(s: string, t: string, i: nat)
    requires i <= |s| && FindNewline(s, i) < |s|
    ensures FindNewline(s + t, i) == FindNewline(s, i)
    decreases |s| - i
  {
    if s[i] != '\n' {
      FindInLonger(s, t, i + 1);
    }
  }

  /** Cutting what is left of the first piece together with the second one is cutting both. */
  lemma {:induction false} CutContinues(s: string, t: string)
    ensures Cut(s + t) == (Cut(s).0 + Cut(Cut(s).1 + t).0, Cut(Cut(s).1 + t).1)
    decreases |s|
  {
    hide Cut, FindNewline;
    CutStep(s);
    CutStep(s + t);
    var p := FindNewline(s, 0);
    if p < |s| {
      FindInLonger(s, t, 0);
      assert (s + t)[..p] == s[..p] && (s + t)[p + 1..] == s[p + 1..] + t;
      CutContinues(s[p + 1..], t);
      Regroup(s[..p], Cut(s[p + 1..]).0, Cut(Cut(s).1 + t).0);
    } else {
      assert [] + Cut(s + t).0 == Cut(s + t).0;
    }
  }

  lemma CutStep(s: string)
    ensures var p := FindNewline(s, 0);
            Cut(s) == if p == |s| then ([], s) else ([s[..p]] + Cut(s[p + 1..]).0, Cut(s[p + 1..]).1)
  {
  }

  lemma Regroup(first: string, a: seq<string>, b: seq<string>)
    ensures ([first] + a) + b == [first] + (a + b)
  {
  }

  /** Every piece is short enough to be added to the unfinished line that is left before it. */
  predicate Buffered(chunks: seq<string>) {
    forall i :: 0 <= i < |chunks| ==>
      |chunks[i]| < INT_MAX && |Cut(Concat(chunks[..i])).1| + |chunks[i]| <= INT_MAX
  }

  /** However the output is cut into pieces, the same lines are handed on. */
  method Receive(chunks: seq<string>) returns (received: seq<string>)
    requires Buffered(chunks)
    ensures received == Delivered(Concat(chunks))
  {
    var call := new GitCallCb();
    for i := 0 to |chunks|
      invariant (call.received, call.buffer) == Cut(Concat(chunks[..i]))
    {
      var whole := Concat(chunks[..i]);
      assert chunks[..i + 1][..i] == chunks[..i];
      CutContinues(whole, chunks[i]);
      if |chunks[i]| == 0 {
        assert whole + chunks[i] == whole;
      }
      call.OnOutputData(chunks[i]);
    }
    assert chunks[..|chunks|] == chunks;
    call.OnEnd();
    received := call.received;
  }

  // ---------------------------------------------------------------- what the lines are

  function Unlines(lines: seq<string>): string {
    if |lines| == 0 then [] else lines[0] + ['\n'] + Unlines(lines[1..])
  }

  /** The text is the lines, each ended by a newline, and the rest; none has a newline inside. */
  ghost predicate Lines(s: string, lines: seq<string>, rest: string) {
    && s == Unlines(lines) + rest && '\n' !in rest
    && forall k :: 0 <= k < |lines| ==> '\n' !in lines[k]
  }

  lemma {:induction false} FirstNewline(s: string, i: nat)
    requires i <= |s| && NUL !in s
    ensures var p := FindNewline(s, i);
            '\n' !in s[i..p] && (p < |s| ==> s[p] == '\n')
    decreases |s| - i
  {
    if i < |s| && s[i] != '\n' {
      FirstNewline(s, i + 1);
      var p := FindNewline(s, i);
      assert s[i..p] == [s[i]] + s[i + 1..p];
    }
  }

  /** For output without NULs, the lines handed on are the newline split of the whole text. */
  lemma {:induction false} CutIsSplit(s: string)
    requires NUL !in s
    ensures Lines(s, Cut(s).0, Cut(s).1)
    decreases |s|
  {
    hide Cut, FindNewline, Lines;
    FirstNewline(s, 0);
    CutStep(s);
    var p := FindNewline(s, 0);
    if p < |s| {
      var t := s[p + 1..];
      CutIsSplit(t);
      assert s[0..p] == s[..p];
      assert s == s[..p] + ['\n'] + t;
      LinesMore(s[..p], t, Cut(t).0, Cut(t).1);
    } else {
      assert s[0..p] == s;
      LinesNone(s);
    }
  }

  lemma LinesMore(first: string, t: string, lines: seq<string>, rest: string)
    requires Lines(t, lines, rest) && '\n' !in first
    ensures Lines(first + ['\n'] + t, [first] + lines, rest)
  {
    assert ([first] + lines)[1..] == lines;
    assert Unlines([first] + lines) == first + ['\n'] + Unlines(lines);
  }

  lemma LinesNone(s: string)
    requires '\n' !in s
    ensures Lines(s, [], s)
  {
    assert Unlines([]) + s == s;
  }

  /** And there is no other way to split it. */
  lemma {:induction false} SplitIsUnique(s: string, a: seq<string>, x: string, b: seq<string>, y: string)
    requires Lines(s, a, x) && Lines(s, b, y)
    ensures a == b && x == y
    decreases |a|
  {
    assert |a| == 0 ==> s == x;
    assert |b| == 0 ==> s == y;
    if |a| > 0 && |b| > 0 {
      SameFirst(a[0], Unlines(a[1..]) + x, b[0], Unlines(b[1..]) + y, s);
      SplitIsUnique(s[|a[0]| + 1..], a[1..], x, b[1..], y);
      assert a == [a[0]] + a[1..] && b == [b[0]] + b[1..];
    } else if |a| > 0 {
      HasNewline(a, x, s);
    } else if |b| > 0 {
      HasNewline(b, y, s);
    }
  }

  lemma SameFirst(l: string, x: string, m: string, y: string, s: string)
    requires s == l + ['\n'] + x == m + ['\n'] + y && '\n' !in l && '\n' !in m
    ensures l == m && x == y && s[|l| + 1..] == x
  {
    assert s[|l|] == '\n' && s[|m|] == '\n';
    assert forall i :: 0 <= i < |l| ==> s[i] == l[i];
    assert forall i :: 0 <= i < |m| ==> s[i] == m[i];
    assert l == s[..|l|] && m == s[..|m|];
    assert x == s[|l| + 1..] && y == s[|m| + 1..];
  }

  lemma HasNewline(a: seq<string>, x: string, s: string)
    requires |a| > 0 && s == Unlines(a) + x
    ensures '\n' in s
  {
    assert s[|a[0]|] == '\n';
  }

  /** A NUL holds everything back from there on until the end of the output. */
  lemma {:induction false} NulStalls(a: string, b: string)
    requires NUL !in a
    ensures Cut(a + ([NUL] + b)) == (Cut(a).0, Cut(a).1 + ([NUL] + b))
    decreases |a|
  {
    CutContinues(a, [NUL] + b);
    CutIsSplit(a);
    var left := Cut(a).1 + ([NUL] + b);
    RestIsPlain(a);
    StopsAtNul(Cut(a).1, b, 0);
    CutStep(left);
    assert Cut(a).0 + [] == Cut(a).0;
  }

  lemma {:induction false} RestIsPlain(s: string)
    requires NUL !in s
    ensures NUL !in Cut(s).1
    decreases |s|
  {
    var p := FindNewline(s, 0);
    if p < |s| {
      RestIsPlain(s[p + 1..]);
    }
  }

  lemma {:induction false} StopsAtNul(a: string, b: string, i: nat)
    requires NUL !in a && '\n' !in a && i <= |a|
    ensures var s := a + ([NUL] + b); FindNewline(s, i) == |s|
    decreases |a| - i
  {
    var s := a + ([NUL] + b);
    if i < |a| {
      assert s[i] == a[i];
      StopsAtNul(a, b, i + 1);
    } else {
      assert s[i] == NUL;
    }
  }

  /** So the lines are the newline split of the text if and only if no newline follows a NUL. */
  lemma NulIsExact(a: string, b: string)
    requires NUL !in a
    ensures var s := a + ([NUL] + b);
            Lines(s, Cut(s).0, Cut(s).1) <==> '\n' !in b
  {
    var s, left := a + ([NUL] + b), Cut(a).1 + ([NUL] + b);
    NulStalls(a, b);
    CutIsSplit(a);
    assert s == Unlines(Cut(a).0) + left;
    NewlineAfter(Cut(a).1, b);
  }

  lemma NewlineAfter(x: string, b: string)
    requires '\n' !in x
    ensures '\n' in x + ([NUL] + b) <==> '\n' in b
  {
    var s := x + ([NUL] + b);
    if i :| 0 <= i < |b| && b[i] == '\n' {
      assert s[|x| + 1 + i] == '\n';
    }
  }
}
