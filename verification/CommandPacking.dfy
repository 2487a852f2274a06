/** Distributing many paths over command lines of limited length. */
module CommandPacking {

  /** The limit on a command line, and what is counted for the quotes around a path. */
  datatype Limits = Limits(maxLength: nat, quotes: nat)

  function LimitsFor(cygwinOrMsys2: bool): Limits {
    if cygwinOrMsys2 then Limits(3500, 4) else Limits(30000, 2)
  }

  function Quoted(path: string): (r: string)
    ensures |r| == |path| + 3
  {
    " \"" + path + "\""
  }

  function CommandLine(start: string, paths: seq<string>): string {
    if |paths| == 0 then start
    else CommandLine(start, paths[..|paths| - 1]) + Quoted(paths[|paths| - 1])
  }

  function Flatten(groups: seq<seq<string>>): seq<string> {
    if |groups| == 0 then [] else Flatten(groups[..|groups| - 1]) + groups[|groups| - 1]
  }

  /** A command may exceed the limit only for the sake of a single path. */
  predicate Fits(start: string, group: seq<string>, l: Limits) {
    |group| == 1 || |CommandLine(start, group)| + (l.quotes - 2) <= l.maxLength
  }

  /** `groups` are the paths in their order, cut into commands that fit. */
  ghost predicate Split(start: string, groups: seq<seq<string>>, paths: seq<string>, l: Limits) {
    && Flatten(groups) == paths
    && forall g :: g in groups ==> |g| > 0 && Fits(start, g, l)
  }

  /** Each path joins the last command if that still fits, and else opens a new one. */
  function Pack(start: string, paths: seq<string>, l: Limits): (groups: seq<seq<string>>)
    ensures |paths| > 0 ==> |groups| > 0
  {
    if |paths| == 0 then []
    else Join(start, Pack(start, paths[..|paths| - 1], l), paths[|paths| - 1], l)
  }

  function Join(start: string, groups: seq<seq<string>>, path: string, l: Limits): (r: seq<seq<string>>)
    ensures |r| > 0
  {
    if |groups| == 0 || |CommandLine(start, groups[|groups| - 1])| + 1 + l.quotes + |path| > l.maxLength
    then groups + [[path]]
    else groups[|groups| - 1 := groups[|groups| - 1] + [path]]
  }

  function Commands(start: string, groups: seq<seq<string>>): seq<string> {
    seq(|groups|, i requires 0 <= i < |groups| => CommandLine(start, groups[i]))
  }

  method ConvertToCmdList(params: string, pathList: seq<string>, cygwinOrMsys2: bool) returns (cmdList: seq<string>)
    ensures var start := "git.exe " + params + " --";
            var limits := if cygwinOrMsys2 then Limits(3500, 4) else Limits(30000, 2);
            cmdList == Commands(start, Pack(start, pathList, limits))
  {
    hide CommandLine, Quoted, Pack, Join, Commands;
    var l := LimitsFor(cygwinOrMsys2);
    var cmd := "git.exe " + params + " --";
    cmdList := [];
    var noCmdYet := true;
    PackNothing(cmd, pathList, l);
    for i := 0 to |pathList|
      invariant noCmdYet <==> i == 0
      invariant cmdList == Commands(cmd, Pack(cmd, pathList[..i], l))
    {
      var filename := pathList[i];
      ghost var groups := Pack(cmd, pathList[..i], l);
      PackNext(cmd, pathList, i, l);
      JoinCommands(cmd, groups, filename, l);
      if noCmdYet || |cmdList[|cmdList| - 1]| + 1 + l.quotes + |filename| > l.maxLength {
        noCmdYet := false;
        cmdList := cmdList + [cmd];
      }
      cmdList := cmdList[|cmdList| - 1 := cmdList[|cmdList| - 1] + Quoted(filename)];
    }
    assert pathList[..|pathList|] == pathList;
  }

  lemma PackNothing(start: string, paths: seq<string>, l: Limits)
    ensures Commands(start, Pack(start, paths[..0], l)) == []
  {
  }

  lemma PackNext(start: string, paths: seq<string>, i: nat, l: Limits)
    requires i < |paths|
    ensures Pack(start, paths[..i + 1], l) == Join(start, Pack(start, paths[..i], l), paths[i], l)
    ensures Pack(start, paths[..i], l) == [] <==> i == 0
  {
    assert paths[..i + 1][..i] == paths[..i];
  }

  lemma JoinCommands(start: string, groups: seq<seq<string>>, path: string, l: Limits)
    ensures |Commands(start, groups)| == |groups|
    ensures var cmds := Commands(start, groups);
            var extended := if |groups| == 0 || |cmds[|cmds| - 1]| + 1 + l.quotes + |path| > l.maxLength then cmds + [start] else cmds;
            Commands(start, Join(start, groups, path, l))
            == extended[|extended| - 1 := extended[|extended| - 1] + Quoted(path)]
  {
    JoinLine(start, [], path);
    assert [] + [path] == [path];
    if |groups| > 0 {
      JoinLine(start, groups[|groups| - 1], path);
    }
    hide CommandLine, Quoted;
  }

  lemma JoinLine(start: string, group: seq<string>, path: string)
    ensures CommandLine(start, group + [path]) == CommandLine(start, group) + Quoted(path)
  {
    assert (group + [path])[..|group|] == group;
  }

  lemma JoinGroup(groups: seq<seq<string>>, path: string)
    ensures Flatten(groups + [[path]]) == Flatten(groups) + [path]
    ensures |groups| > 0 ==>
              Flatten(groups[|groups| - 1 := groups[|groups| - 1] + [path]]) == Flatten(groups) + [path]
  {
    assert (groups + [[path]])[..|groups|] == groups;
    if |groups| > 0 {
      var joined := groups[|groups| - 1 := groups[|groups| - 1] + [path]];
      assert joined[..|groups| - 1] == groups[..|groups| - 1];
    }
  }

  /** Every path is in exactly one command, in order, and no command with several paths is
      longer than the limit allows. */
  lemma {:induction false} PackIsSplit(start: string, paths: seq<string>, l: Limits)
    requires l.quotes >= 2
    ensures Split(start, Pack(start, paths, l), paths, l)
  {
    if |paths| > 0 {
      var n := |paths| - 1;
      PackIsSplit(start, paths[..n], l);
      JoinIsSplit(start, Pack(start, paths[..n], l), paths[..n], paths[n], l);
      assert paths == paths[..n] + [paths[n]];
    }
  }

  lemma JoinIsSplit(start: string, groups: seq<seq<string>>, paths: seq<string>, path: string, l: Limits)
    requires l.quotes >= 2 && Split(start, groups, paths, l)
    ensures Split(start, Join(start, groups, path, l), paths + [path], l)
  {
    JoinGroup(groups, path);
    if |groups| > 0 {
      assert groups[|groups| - 1] in groups;
      JoinLine(start, groups[|groups| - 1], path);
    }
    hide CommandLine, Quoted, Flatten;
    forall g | g in Join(start, groups, path, l) ensures |g| > 0 && Fits(start, g, l) {
      assert g in groups || g == [path] || (|groups| > 0 && g == groups[|groups| - 1] + [path]);
    }
  }

  // ---------------------------------------------------------------- the arguments of a command

  /** The text between the quotes of a text, before the first one and after the last one. */
  function Pieces(s: string): (r: seq<string>)
    ensures |r| > 0
  {
    if |s| == 0 then [[]]
    else if s[0] == '"' then [[]] + Pieces(s[1..])
    else var r := Pieces(s[1..]); [[s[0]] + r[0]] + r[1..]
  }

  lemma {:induction false} PieceEnds(word: string, rest: string)
    requires '"' !in word
    ensures Pieces(word + ("\"" + rest)) == [word] + Pieces(rest)
  {
    var s := word + ("\"" + rest);
    if |word| == 0 {
      assert s[1..] == rest;
    } else {
      assert s[1..] == word[1..] + ("\"" + rest) && s[0] == word[0];
      PieceEnds(word[1..], rest);
      assert [word[0]] + word[1..] == word;
    }
  }

  lemma {:induction false} LineFirst(start: string, paths: seq<string>)
    requires |paths| > 0
    ensures CommandLine(start, paths) == CommandLine(start + Quoted(paths[0]), paths[1..])
  {
    var n := |paths| - 1;
    hide Quoted;
    if n > 0 {
      LineFirst(start, paths[..n]);
      assert paths[..n][1..] == paths[1..][..n - 1];
    } else {
      assert CommandLine(start, paths[..0]) == start;
    }
  }

  /** The quotes enclose the paths, each as it is, with a space before each of them. */
  predicate AreArguments(pieces: seq<string>, paths: seq<string>) {
    && |pieces| == 2 * |paths| + 1 && pieces[2 * |paths|] == []
    && forall i :: 0 <= i < |paths| ==> pieces[2 * i] == " " && pieces[2 * i + 1] == paths[i]
  }

  lemma OneMoreArgument(pieces: seq<string>, paths: seq<string>)
    requires |paths| > 0 && AreArguments(pieces, paths[1..])
    ensures AreArguments([" ", paths[0]] + pieces, paths)
  {
    var all := [" ", paths[0]] + pieces;
    forall i | 0 <= i < |paths| ensures all[2 * i] == " " && all[2 * i + 1] == paths[i] {
      if i > 0 {
        assert all[2 * i] == pieces[2 * (i - 1)] && all[2 * i + 1] == pieces[2 * (i - 1) + 1];
        assert paths[i] == paths[1..][i - 1];
      }
    }
  }

  lemma FirstArgument(path: string, after: string)
    requires '"' !in path
    ensures Pieces(Quoted(path) + after) == [" ", path] + Pieces(after)
  {
    assert Quoted(path) + after == " " + ("\"" + (path + ("\"" + after)));
    PieceEnds(" ", path + ("\"" + after));
    PieceEnds(path, after);
    hide Pieces;
    assert [" "] + ([path] + Pieces(after)) == [" ", path] + Pieces(after);
  }

  /** The command line begins with `start`, and the paths are its further arguments. */
  lemma {:induction false} PathsAreArguments(start: string, paths: seq<string>)
    requires forall i :: 0 <= i < |paths| ==> '"' !in paths[i]
    ensures start <= CommandLine(start, paths)
    ensures AreArguments(Pieces(CommandLine(start, paths)[|start|..]), paths)
    decreases |paths|
  {
    if |paths| > 0 {
      LineFirst(start, paths);
      PathsAreArguments(start + Quoted(paths[0]), paths[1..]);
      hide CommandLine, Pieces, Quoted, AreArguments;
      var line := CommandLine(start, paths);
      var after := line[|start + Quoted(paths[0])|..];
      assert line == (start + Quoted(paths[0])) + after;
      assert line[|start|..] == Quoted(paths[0]) + after;
      FirstArgument(paths[0], after);
      OneMoreArgument(Pieces(after), paths);
    }
  }

  // ---------------------------------------------------------------- no other split is shorter

  /** The line gets longer with every path, so it is shorter for the end of a group. */
  lemma {:induction false} LongerLine(start: string, group: seq<string>, k: nat)
    requires k <= |group|
    ensures |CommandLine(start, group[k..])| <= |CommandLine(start, group)|
    decreases |group|
  {
    if k < |group| {
      var n := |group| - 1;
      LongerLine(start, group[..n], k);
      assert group[k..][..n - k] == group[..n][k..];
    } else {
      assert group[k..] == [];
      ShortestLine(start, group);
    }
  }

  lemma {:induction false} ShortestLine(start: string, group: seq<string>)
    ensures |start| <= |CommandLine(start, group)|
  {
    if |group| > 0 {
      ShortestLine(start, group[..|group| - 1]);
    }
  }

  /** A split of some paths without the last path. */
  function Shortened(groups: seq<seq<string>>): seq<seq<string>>
    requires |groups| > 0 && |groups[|groups| - 1]| > 0
  {
    var n := |groups| - 1;
    if |groups[n]| == 1 then groups[..n] else groups[n := groups[n][..|groups[n]| - 1]]
  }

  lemma ShortenedIsSplit(start: string, groups: seq<seq<string>>, paths: seq<string>, l: Limits)
    requires Split(start, groups, paths, l) && |paths| > 0
    ensures |groups| > 0 && |groups[|groups| - 1]| > 0
    ensures groups[|groups| - 1][|groups[|groups| - 1]| - 1] == paths[|paths| - 1]
    ensures Fits(start, groups[|groups| - 1], l)
    ensures Split(start, Shortened(groups), paths[..|paths| - 1], l)
  {
    var n, m := |groups| - 1, |paths| - 1;
    var last := groups[n];
    assert last in groups;
    assert paths == Flatten(groups[..n]) + last;
    var shorter := Shortened(groups);
    if |last| == 1 {
      assert Flatten(shorter) == paths[..m];
    } else {
      var k := |last| - 1;
      assert shorter[..n] == groups[..n];
      assert Flatten(shorter) == Flatten(groups[..n]) + last[..k] == paths[..m];
      JoinLine(start, last[..k], last[k]);
      assert last == last[..k] + [last[k]];
      forall g | g in shorter ensures |g| > 0 && Fits(start, g, l) {
        if g != last[..k] {
          assert g in groups;
        }
      }
    }
  }

  /** No order-preserving split into commands that fit has fewer commands; and one with as many
      has at least as many paths in its last command. */
  lemma {:induction false} PackIsShortest(start: string, paths: seq<string>, l: Limits, other: seq<seq<string>>)
    requires l.quotes >= 2 && Split(start, other, paths, l)
    ensures |Pack(start, paths, l)| <= |other|
    ensures |paths| > 0 && |Pack(start, paths, l)| == |other| ==>
              |Pack(start, paths, l)[|other| - 1]| <= |other[|other| - 1]|
    decreases |paths|
  {
    if |paths| > 0 {
      var n := |paths| - 1;
      ShortenedIsSplit(start, other, paths, l);
      hide Split, Fits, Join, CommandLine, Quoted;
      PackIsShortest(start, paths[..n], l, Shortened(other));
      PackIsSplit(start, paths[..n], l);
      JoinIsShortest(start, Pack(start, paths[..n], l), paths[..n], paths[n], l, other);
    }
  }

  lemma JoinIsShortest(start: string, groups: seq<seq<string>>, paths: seq<string>, path: string, l: Limits, other: seq<seq<string>>)
    requires l.quotes >= 2 && Split(start, groups, paths, l)
    requires |other| > 0 && |other[|other| - 1]| > 0 && Fits(start, other[|other| - 1], l)
    requires other[|other| - 1][|other[|other| - 1]| - 1] == path
    requires Split(start, Shortened(other), paths, l) && |groups| <= |Shortened(other)|
    requires |groups| > 0 && |groups| == |Shortened(other)| ==>
               |groups[|groups| - 1]| <= |Shortened(other)[|groups| - 1]|
    ensures var r := Join(start, groups, path, l);
            |r| <= |other| && (|r| == |other| ==> |r[|other| - 1]| <= |other[|other| - 1]|)
  {
    hide CommandLine, Quoted, Flatten;
    var last, shorter := other[|other| - 1], Shortened(other);
    if |groups| > 0 && |groups| == |other| && |last| > 1 {
      var k, tail := |last| - 1, groups[|groups| - 1];
      assert shorter[|shorter| - 1] == last[..k];
      SameEnd(groups, shorter, paths);
      EndIsShorter(start, tail, last);
    }
  }

  /** The end of a group without its last path, and that path, make no longer a line. */
  lemma EndIsShorter(start: string, tail: seq<string>, group: seq<string>)
    requires |group| > 0 && |tail| <= |group| - 1 && tail == group[..|group| - 1][|group| - 1 - |tail|..]
    ensures |CommandLine(start, tail)| + |group[|group| - 1]| + 3 <= |CommandLine(start, group)|
  {
    hide CommandLine;
    var k := |group| - 1;
    LongerLine(start, group[..k], k - |tail|);
    JoinLine(start, group[..k], group[k]);
    assert group == group[..k] + [group[k]];
  }

  /** Of two lists with the same content the shorter last group ends the longer one. */
  lemma SameEnd(a: seq<seq<string>>, b: seq<seq<string>>, paths: seq<string>)
    requires Flatten(a) == paths == Flatten(b) && |a| > 0 && |b| > 0
    requires |a[|a| - 1]| <= |b[|b| - 1]|
    ensures var s, t := a[|a| - 1], b[|b| - 1]; s == t[|t| - |s|..]
  {
    var s, t := a[|a| - 1], b[|b| - 1];
    assert s == paths[|paths| - |s|..] && t == paths[|paths| - |t|..];
  }

  // ---------------------------------------------------------------- the batches that are run

  /** A path, and what happens when the loop has come to it: what the cancel flag reads before
      and after the command that may be run there, and the exit code of that command. */
  datatype Item = Item(path: string, cancelSeen: bool, exitCode: int, cancelAfter: bool)
  {
    /** The command run here does not end the loop. */
    predicate GoesOn(ignoreErrors: bool) { (exitCode == 0 || ignoreErrors) && !cancelAfter }
  }

  function PathsOf(items: seq<Item>): seq<string> {
    seq(|items|, i requires 0 <= i < |items| => items[i].path)
  }

  /** What has been added up before the last path of a batch is looked at. */
  function Weight(batch: seq<Item>, l: Limits): nat {
    if |batch| <= 1 then 0
    else Weight(batch[..|batch| - 1], l) + 1 + l.quotes + |batch[|batch| - 2].path|
  }

  /** Whether the batch that began at `first` is run when the loop has come to item `i`. */
  predicate Due(items: seq<Item>, first: nat, i: nat, l: Limits)
    requires first <= i < |items|
  {
    Weight(items[first..i + 1], l) + |items[i].path| > l.maxLength || i == |items| - 1 || items[i].cancelSeen
  }

  ghost predicate NotDueYet(items: seq<Item>, first: nat, i: nat, l: Limits)
    requires i <= |items|
  {
    forall j :: first <= j < i ==> !Due(items, first, j, l)
  }

  /** Where the batch begins that comes after the ones ending at `ends`. */
  function Start(ends: seq<nat>): nat {
    if |ends| == 0 then 0 else ends[|ends| - 1] + 1
  }

  ghost predicate IsBatch(items: seq<Item>, first: nat, end: nat, batch: seq<string>, l: Limits) {
    && first <= end < |items| && batch == PathsOf(items[first..end + 1])
    && Due(items, first, end, l) && NotDueYet(items, first, end, l)
  }

  /** The batches follow each other without a gap, and each of them ends as soon as it is due. */
  ghost predicate Batched(items: seq<Item>, ends: seq<nat>, runs: seq<seq<string>>, l: Limits) {
    |runs| == |ends| && forall k :: 0 <= k < |ends| ==> IsBatch(items, Start(ends[..k]), ends[k], runs[k], l)
  }

  ghost predicate AllGoOn(items: seq<Item>, ends: seq<nat>, ignoreErrors: bool) {
    forall k :: 0 <= k < |ends| ==> ends[k] < |items| && items[ends[k]].GoesOn(ignoreErrors)
  }

  /** The batches that are run; if the loop gets through, they are all there are, and else the
      last one is where it ended. */
  ghost predicate RunsAre(items: seq<Item>, ends: seq<nat>, runs: seq<seq<string>>, l: Limits, ignoreErrors: bool, ok: bool) {
    && Batched(items, ends, runs, l)
    && if ok then Start(ends) == |items| && AllGoOn(items, ends, ignoreErrors)
       else |ends| > 0 && AllGoOn(items, ends[..|ends| - 1], ignoreErrors)
            && ends[|ends| - 1] < |items| && !items[ends[|ends| - 1]].GoesOn(ignoreErrors)
  }

  /** Runs one command per batch until a command fails or the user cancels. */
  method ExecuteCommands(items: seq<Item>, cygwinOrMsys2: bool, ignoreErrors: bool) returns (ok: bool, runs: seq<seq<string>>)
    ensures var limits := if cygwinOrMsys2 then Limits(3500, 4) else Limits(30000, 2);
            exists ends: seq<nat> :: RunsAre(items, ends, runs, limits, ignoreErrors, ok)
  {
    var l := LimitsFor(cygwinOrMsys2);
    hide Weight, NotDueYet, IsBatch;
    NewBatch(items, 0, l);
    ghost var ends: seq<nat> := [];
    runs := [];
    var maxLength := 0;
    var firstCombine := 0;
    for i := 0 to |items|
      invariant firstCombine == Start(ends) <= i && (i == |items| ==> firstCombine == i)
      invariant Batched(items, ends, runs, l) && AllGoOn(items, ends, ignoreErrors)
      invariant i < |items| ==> maxLength == Weight(items[firstCombine..i + 1], l)
      invariant NotDueYet(items, firstCombine, i, l)
    {
      hide Batched, AllGoOn;
      if maxLength + |items[i].path| > l.maxLength || i == |items| - 1 || items[i].cancelSeen {
        var batch := PathsOf(items[firstCombine..i + 1]);
        AddBatch(items, ends, runs, l, i);
        AddGoesOn(items, ends, i, ignoreErrors);
        runs, ends := runs + [batch], ends + [i];
        if items[i].exitCode != 0 && !ignoreErrors {
          assert RunsAre(items, ends, runs, l, ignoreErrors, false);
          return false, runs;
        }
        maxLength := 0;
        firstCombine := i + 1;
        if items[i].cancelAfter {
          assert RunsAre(items, ends, runs, l, ignoreErrors, false);
          return false, runs;
        }
        NewBatch(items, i + 1, l);
      } else {
        maxLength := maxLength + 1 + l.quotes + |items[i].path|;
        NextWeight(items, firstCombine, i, l);
        StillNotDue(items, firstCombine, i, l);
      }
    }
    ok := true;
    assert RunsAre(items, ends, runs, l, ignoreErrors, ok);
  }

  lemma AddBatch(items: seq<Item>, ends: seq<nat>, runs: seq<seq<string>>, l: Limits, i: nat)
    requires Batched(items, ends, runs, l)
    requires Start(ends) <= i < |items| && Due(items, Start(ends), i, l) && NotDueYet(items, Start(ends), i, l)
    ensures Batched(items, ends + [i], runs + [PathsOf(items[Start(ends)..i + 1])], l)
  {
    var batch := PathsOf(items[Start(ends)..i + 1]);
    var ends', runs' := ends + [i], runs + [batch];
    assert IsBatch(items, Start(ends), i, batch, l);
    hide IsBatch, Start;
    forall k | 0 <= k < |ends'| ensures IsBatch(items, Start(ends'[..k]), ends'[k], runs'[k], l) {
      if k < |ends| {
        assert ends'[..k] == ends[..k];
      } else {
        assert ends'[..k] == ends;
      }
    }
  }

  lemma AddGoesOn(items: seq<Item>, ends: seq<nat>, i: nat, ignoreErrors: bool)
    requires AllGoOn(items, ends, ignoreErrors) && i < |items|
    ensures (ends + [i])[..|ends|] == ends
    ensures items[i].GoesOn(ignoreErrors) ==> AllGoOn(items, ends + [i], ignoreErrors)
  {
  }

  lemma NewBatch(items: seq<Item>, first: nat, l: Limits)
    ensures first < |items| ==> Weight(items[first..first + 1], l) == 0
    ensures first <= |items| ==> NotDueYet(items, first, first, l)
  {
  }

  lemma StillNotDue(items: seq<Item>, first: nat, i: nat, l: Limits)
    requires first <= i < |items| && NotDueYet(items, first, i, l) && !Due(items, first, i, l)
    ensures NotDueYet(items, first, i + 1, l)
  {
  }

  lemma NextWeight(items: seq<Item>, first: nat, i: nat, l: Limits)
    requires first <= i < |items| - 1
    ensures Weight(items[first..i + 2], l) == Weight(items[first..i + 1], l) + 1 + l.quotes + |items[i].path|
  {
    var batch := items[first..i + 2];
    assert batch[..|batch| - 1] == items[first..i + 1];
  }

  /** How long the command line of a batch is. What the loop adds up counts the quotes of all
      paths but the last one, and nothing of what the line begins with. */
  lemma {:induction false} BatchLength(start: string, items: seq<Item>, first: nat, end: nat, l: Limits)
    requires l.quotes >= 2 && first <= end < |items|
    ensures |CommandLine(start, PathsOf(items[first..end + 1]))| + (l.quotes - 2) * (end - first)
         == |start| + Weight(items[first..end + 1], l) + |items[end].path| + 3
    decreases end
  {
    hide CommandLine, Quoted, Weight;
    LineGrows(start, items, first, end);
    if first < end {
      BatchLength(start, items, first, end - 1, l);
      NextWeight(items, first, end - 1, l);
      OneMore(l.quotes - 2, end - first);
    } else {
      NewBatch(items, first, l);
      LineOfNone(start, items, first);
    }
  }

  lemma OneMore(q: int, n: int)
    ensures q * n == q * (n - 1) + q
  {
  }

  lemma LineGrows(start: string, items: seq<Item>, first: nat, end: nat)
    requires first <= end < |items|
    ensures |CommandLine(start, PathsOf(items[first..end + 1]))|
         == |CommandLine(start, PathsOf(items[first..end]))| + |items[end].path| + 3
  {
    var batch := PathsOf(items[first..end + 1]);
    assert batch[..|batch| - 1] == PathsOf(items[first..end]);
  }

  lemma LineOfNone(start: string, items: seq<Item>, first: nat)
    requires first <= |items|
    ensures CommandLine(start, PathsOf(items[first..first])) == start
  {
  }

  /** The batch is run because the loop takes it to be full. */
  predicate Full(items: seq<Item>, first: nat, end: nat, l: Limits)
    requires first <= end < |items|
  {
    Weight(items[first..end + 1], l) + |items[end].path| > l.maxLength
  }

  /** When the command line of a batch meets the limit, where two characters are counted for the
      quotes; so one that is run because it is full never does, and is over the limit by more
      than what it begins with. */
  lemma BatchFits(start: string, items: seq<Item>, first: nat, end: nat, batch: seq<string>, l: Limits)
    requires l.quotes == 2 && IsBatch(items, first, end, batch, l)
    ensures |CommandLine(start, batch)| <= l.maxLength <==>
              |start| + 3 + Weight(items[first..end + 1], l) + |items[end].path| <= l.maxLength
    ensures Full(items, first, end, l) ==> |CommandLine(start, batch)| > l.maxLength + |start| + 3
  {
    BatchLength(start, items, first, end, l);
  }

  /** With more characters counted, a full batch is over by as much, but for the surplus of all
      paths but the last one. */
  lemma FullBatch(start: string, items: seq<Item>, first: nat, end: nat, batch: seq<string>, l: Limits)
    requires l.quotes >= 2 && IsBatch(items, first, end, batch, l) && Full(items, first, end, l)
    ensures |CommandLine(start, batch)| + (l.quotes - 2) * (end - first) > l.maxLength + |start| + 3
  {
    BatchLength(start, items, first, end, l);
  }

  /** No batch is over by more than what it begins with and the last path. */
  lemma BatchBound(start: string, items: seq<Item>, first: nat, end: nat, batch: seq<string>, l: Limits)
    requires l.quotes >= 2 && IsBatch(items, first, end, batch, l)
    ensures |CommandLine(start, batch)| + (l.quotes - 2) * (end - first)
         <= |start| + l.maxLength + l.quotes + 4 + |items[end].path|
  {
    BatchLength(start, items, first, end, l);
    if first < end {
      assert !Due(items, first, end - 1, l);
      NextWeight(items, first, end - 1, l);
    }
  }

  /** Where ExecuteCommands runs several paths as one full batch, ConvertToCmdList makes several
      commands of them. */
  lemma FullBatchIsPackedInSeveral(start: string, items: seq<Item>, first: nat, end: nat, batch: seq<string>, l: Limits)
    requires l.quotes == 2 && IsBatch(items, first, end, batch, l) && Full(items, first, end, l) && first < end
    ensures |Pack(start, batch, l)| >= 2
  {
    BatchFits(start, items, first, end, batch, l);
    PackIsSplit(start, batch, l);
    OneGroup(start, Pack(start, batch, l), batch, l);
  }

  lemma OneGroup(start: string, groups: seq<seq<string>>, paths: seq<string>, l: Limits)
    requires Split(start, groups, paths, l)
    ensures |groups| == 1 ==> Fits(start, paths, l)
  {
    if |groups| == 1 {
      assert Flatten(groups[..0]) == [];
      assert Flatten(groups) == groups[0];
      assert groups[0] in groups;
    }
  }
}
