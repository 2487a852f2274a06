/** How a printed log is listed, in terms of what was printed. */
module LogListing {
  import opened Options
  import opened LogRecords
  import opened LogParser

  /** What a status letter says about its file. */
  predicate Says(status: string, flag: Flag) {
    match flag
    case Added => status == "A"
    case Deleted => status == "D" || status == "K"
    case Modified => status == "M" || status == "T"
    case Replaced => status == "R"
    case Copy => status == "C"
    case Unmerged => status == "U"
    case Merged => false
  }

  /** The directory bit of a mode, as it is printed: submodules are "160000", trees "040000". */
  predicate HasDirBit(mode: string)
    requires |mode| == 6
  {
    mode[1] in "4567"
  }

  predicate IsDrive(name: string) { |name| == 2 && name[1] == ':' }

  lemma SaysIs(status: char)
    ensures forall flag :: flag in ParseStatus(status) <==> Says([status], flag)
  {
    assert forall c: char :: [status] == [c] <==> [status][0] == [c][0];
  }

  lemma DirBitOf(v: nat, high: nat, d: nat, rest: nat)
    requires v == 32768 * high + 4096 * d + rest && high < 8 && d < 8 && rest < 4096
    ensures IsDirMode(v) <==> d >= 4
  {
    assert v % 0x1_0000_0000 == v;
    assert v / 0x4000 == 2 * high + (if d >= 4 then 1 else 0);
  }

  lemma DirBitIs(mode: string)
    requires IsMode(mode)
    ensures IsDirMode(OctalDigits(mode, 0)) <==> HasDirBit(mode)
    ensures OctalDigits(mode, 0) == 0 <==> mode == "000000"
  {
    ModeValue(mode);
    hide OctalDigits, IsDirMode;
    var d := DigitAt(mode, 1);
    DirBitOf(OctalDigits(mode, 0), DigitAt(mode, 0), d,
             512 * DigitAt(mode, 2) + 64 * DigitAt(mode, 3) + 8 * DigitAt(mode, 4) + DigitAt(mode, 5));
    assert d >= 4 <==> HasDirBit(mode);
  }

  /** A path shows what the record says of it. */
  ghost predicate Shows(path: GitPath, p: Printed)
    requires p.PrintedRaw? && p.WellFormed()
  {
    && path.name == p.name && path.oldName == p.oldName
    && (forall flag :: flag in path.action <==> Says(p.status, flag) || (flag == Merged && p.merged))
    && (path.isDirectory <==>
          HasDirBit(if p.status == "D" || p.status == "K" || p.status == "U" then p.modeOld else p.modeNew))
  }

  lemma RecordIsShown(p: Printed)
    requires p.PrintedRaw? && p.WellFormed() && !IsDrive(p.name)
    ensures Shows(NewPath(p.Meaning()), p)
  {
    assert p.status == [p.status[0]];
    SaysIs(p.status[0]);
    DirBitIs(p.modeOld);
    DirBitIs(p.modeNew);
    hide ParseStatus, IsDirMode, OctalDigits, HasDirBit;
    assert Deleted in ParseStatus(p.status[0]) <==> Says(p.status, Deleted);
    assert Unmerged in ParseStatus(p.status[0]) <==> Says(p.status, Unmerged);
  }

  /** No record mentions a file that was mentioned before. */
  predicate DifferentFiles(printed: seq<Printed>, merge: bool) {
    && (forall k :: 0 <= k < |printed| ==> printed[k].PrintedRaw? && !IsDrive(printed[k].name))
    && (forall i, j :: 0 <= i < j < |printed| ==>
          printed[j].name != printed[i].name && (merge ==> printed[j].name != printed[i].oldName))
  }

  lemma {:induction false} MeaningsAre(printed: seq<Printed>)
    requires forall k :: 0 <= k < |printed| ==> printed[k].WellFormed()
    ensures |Meanings(printed)| == |printed|
    ensures forall k :: 0 <= k < |printed| ==> Meanings(printed)[k] == printed[k].Meaning()
  {
    hide Printed.WellFormed, Printed.Meaning;
    if |printed| > 0 {
      MeaningsAre(printed[1..]);
    }
  }

  lemma MeaningKeepsNames(p: Printed)
    requires p.WellFormed()
    ensures p.PrintedRaw? <==> p.Meaning().Raw?
    ensures p.Meaning().name == p.name && p.Meaning().oldName == p.oldName
  {
  }

  /** Records with the same names as what was printed. */
  ghost predicate SameNames(records: seq<Record>, printed: seq<Printed>) {
    && |records| == |printed|
    && forall k :: 0 <= k < |records| ==>
         (printed[k].PrintedRaw? <==> records[k].Raw?)
         && records[k].name == printed[k].name && records[k].oldName == printed[k].oldName
  }

  lemma NamesAreSame(printed: seq<Printed>)
    requires forall k :: 0 <= k < |printed| ==> printed[k].WellFormed()
    ensures SameNames(Meanings(printed), printed)
  {
    MeaningsAre(printed);
    hide Printed.WellFormed, Meanings, Printed.Meaning;
    forall k | 0 <= k < |printed|
      ensures printed[k].PrintedRaw? <==> Meanings(printed)[k].Raw?
      ensures Meanings(printed)[k].name == printed[k].name && Meanings(printed)[k].oldName == printed[k].oldName
    {
      MeaningKeepsNames(printed[k]);
    }
  }

  lemma SameNamesUnrepeated(records: seq<Record>, printed: seq<Printed>, merge: bool)
    requires SameNames(records, printed) && DifferentFiles(printed, merge)
    ensures Unrepeated(records, merge)
  {
    assert forall k :: 0 <= k < |records| ==> !IsDrive(printed[k].name);
    assert forall k :: 0 <= k < |records| ==> IsRoot(records[k].name) == IsDrive(printed[k].name);
  }

  lemma DifferentIsUnrepeated(printed: seq<Printed>, merge: bool)
    requires (forall k :: 0 <= k < |printed| ==> printed[k].WellFormed()) && DifferentFiles(printed, merge)
    ensures Unrepeated(Meanings(printed), merge)
  {
    hide Printed.WellFormed, Meanings, DifferentFiles, Unrepeated;
    NamesAreSame(printed);
    SameNamesUnrepeated(Meanings(printed), printed, merge);
  }

  lemma {:induction false} MeaningsJoin(a: seq<Printed>, c: seq<Printed>)
    requires forall k :: 0 <= k < |a| ==> a[k].WellFormed()
    requires forall k :: 0 <= k < |c| ==> c[k].WellFormed()
    ensures Meanings(a + c) == Meanings(a) + Meanings(c)
  {
    hide Printed.WellFormed, Printed.Meaning;
    if |a| == 0 {
      assert a + c == c;
    } else {
      assert (a + c)[1..] == a[1..] + c;
      MeaningsJoin(a[1..], c);
    }
  }

  // ---------------------------------------------------------------- line counts

  /** `stats` are line counts of the files of the records at `places`. */
  ghost predicate CountsOf(records: seq<Record>, stats: seq<Record>, places: seq<nat>) {
    && |places| == |stats|
    && (forall j :: 0 <= j < |stats| ==>
          stats[j].Numstat? && places[j] < |records| && stats[j].name == records[places[j]].name)
    && (forall i, j :: 0 <= i < j < |places| ==> places[i] != places[j])
  }

  /** The paths of the records, with the line counts of those at `places`. */
  ghost predicate Counted(paths: seq<GitPath>, records: seq<Record>, stats: seq<Record>, places: seq<nat>)
    requires CountsOf(records, stats, places) && forall k :: 0 <= k < |records| ==> records[k].Raw?
  {
    && |paths| == |records|
    && (forall k :: 0 <= k < |paths| ==> paths[k].(statAdd := [], statDel := []) == NewPath(records[k]))
    && (forall j :: 0 <= j < |stats| ==>
          paths[places[j]].statAdd == stats[j].added && paths[places[j]].statDel == stats[j].removed)
    && (forall k :: 0 <= k < |paths| && k !in places ==> paths[k].statAdd == [] && paths[k].statDel == [])
  }

  lemma {:induction false} StatsAreListed(records: seq<Record>, stats: seq<Record>, places: seq<nat>, merge: bool)
    requires Unrepeated(records, merge) && CountsOf(records, stats, places)
    ensures Counted(ApplyAll(records + stats, merge).paths, records, stats, places)
    ensures ApplyAll(records + stats, merge).duplicates == ApplyAll(records, merge).duplicates
    decreases |stats|
  {
    hide NewPath, Apply, CountsOf, Counted, Unrepeated;
    AllAreRaw(records, merge);
    if |stats| == 0 {
      assert records + stats == records;
      EachRecordIsListed(records, merge);
      NothingCounted(records, stats, places, merge);
    } else {
      var n := |stats| - 1;
      CountsBefore(records, stats, places);
      StatsAreListed(records, stats[..n], places[..n], merge);
      assert (records + stats)[..|records| + n] == records + stats[..n];
      PlaceOf(records, places[n], merge);
      CountedNext(ApplyAll(records + stats[..n], merge), records, stats, places, merge);
    }
  }

  lemma AllAreRaw(records: seq<Record>, merge: bool)
    requires Unrepeated(records, merge)
    ensures forall k :: 0 <= k < |records| ==> records[k].Raw?
  {
  }

  lemma CountsBefore(records: seq<Record>, stats: seq<Record>, places: seq<nat>)
    requires |stats| > 0 && CountsOf(records, stats, places)
    ensures |places| == |stats| && CountsOf(records, stats[..|stats| - 1], places[..|stats| - 1])
    ensures var n := |stats| - 1; stats[n].Numstat? && places[n] < |records| && stats[n].name == records[places[n]].name
  {
  }

  lemma NothingCounted(records: seq<Record>, stats: seq<Record>, places: seq<nat>, merge: bool)
    requires |stats| == 0 && CountsOf(records, stats, places) && forall k :: 0 <= k < |records| ==> records[k].Raw?
    ensures Counted(NewPaths(records), records, stats, places)
  {
    hide ParseStatus, IsDirMode;
  }

  /** A file is found at the place of its record. */
  lemma PlaceOf(records: seq<Record>, k: nat, merge: bool)
    requires Unrepeated(records, merge) && k < |records|
    ensures var d := ApplyAll(records, merge).duplicates;
            Sanitized(records[k].name) == records[k].name && records[k].name in d && d[records[k].name] == k
  {
    EachRecordIsListed(records, merge);
    PathsAreDistinct(records, merge);
    PlacesAreExact(records, merge);
    NameOfNew(records[k]);
    hide ApplyAll, NoClash, NewPath;
    assert ApplyAll(records, merge).paths[k] == NewPath(records[k]);
  }

  lemma NameOfNew(r: Record)
    requires r.Raw? && !IsRoot(r.name)
    ensures NewPath(r).name == r.name == Sanitized(r.name)
  {
  }

  lemma CountedNext(s: Paths, records: seq<Record>, stats: seq<Record>, places: seq<nat>, merge: bool)
    requires |stats| > 0 && s.InRange() && CountsOf(records, stats, places)
    requires forall k :: 0 <= k < |records| ==> records[k].Raw?
    requires CountsOf(records, stats[..|stats| - 1], places[..|stats| - 1])
    requires Counted(s.paths, records, stats[..|stats| - 1], places[..|stats| - 1])
    requires var r := stats[|stats| - 1]; Sanitized(r.name) == r.name && r.name in s.duplicates
    requires s.duplicates[stats[|stats| - 1].name] == places[|stats| - 1]
    ensures var s' := Apply(s, stats[|stats| - 1], merge);
            Counted(s'.paths, records, stats, places) && s'.duplicates == s.duplicates
  {
    hide NewPath, Sanitized;
    var n := |stats| - 1;
    var s' := Apply(s, stats[n], merge);
    assert s'.paths == s.paths[places[n] := s.paths[places[n]].(statAdd := stats[n].added, statDel := stats[n].removed)];
    forall j | 0 <= j < n
      ensures s'.paths[places[j]].statAdd == stats[j].added && s'.paths[places[j]].statDel == stats[j].removed
    {
      assert places[j] != places[n] && stats[..n][j] == stats[j] && places[..n][j] == places[j];
    }
    forall k | 0 <= k < |s'.paths| && k !in places ensures s'.paths[k].statAdd == [] && s'.paths[k].statDel == [] {
      assert places[n] in places && k !in places[..n];
    }
  }

  lemma LogIsRead(raws: seq<Printed>, counts: seq<Printed>)
    requires forall k :: 0 <= k < |raws| ==> raws[k].WellFormed()
    requires forall k :: 0 <= k < |counts| ==> counts[k].WellFormed()
    ensures Records(Print(raws + counts)) == Some(Meanings(raws) + Meanings(counts))
  {
    hide Printed.WellFormed, Meanings, Records, Print;
    var all := raws + counts;
    assert forall k :: 0 <= k < |all| ==> all[k] == if k < |raws| then raws[k] else counts[k - |raws|];
    RecordsReadBack(all);
    MeaningsJoin(raws, counts);
  }

  lemma RawsMean(raws: seq<Printed>)
    requires forall k :: 0 <= k < |raws| ==> raws[k].PrintedRaw? && raws[k].WellFormed()
    ensures |Meanings(raws)| == |raws|
    ensures forall k :: 0 <= k < |raws| ==> Meanings(raws)[k].Raw? && Meanings(raws)[k].name == raws[k].name
  {
    MeaningsAre(raws);
    hide Printed.WellFormed, Meanings;
    forall k | 0 <= k < |raws| ensures Meanings(raws)[k].Raw? && Meanings(raws)[k].name == raws[k].name {
      assert Meanings(raws)[k] == raws[k].Meaning();
    }
  }

  lemma StatsMean(counts: seq<Printed>)
    requires forall j :: 0 <= j < |counts| ==> counts[j].PrintedNumstat? && counts[j].WellFormed()
    ensures |Meanings(counts)| == |counts| && forall j :: 0 <= j < |counts| ==>
              Meanings(counts)[j] == Numstat(counts[j].added, counts[j].removed, counts[j].oldName, counts[j].name)
  {
    MeaningsAre(counts);
    hide Printed.WellFormed, Meanings;
    forall j | 0 <= j < |counts|
      ensures Meanings(counts)[j] == Numstat(counts[j].added, counts[j].removed, counts[j].oldName, counts[j].name)
    {
      assert Meanings(counts)[j] == counts[j].Meaning();
    }
  }

  lemma CountsMean(raws: seq<Printed>, counts: seq<Printed>, places: seq<nat>)
    requires forall k :: 0 <= k < |raws| ==> raws[k].PrintedRaw? && raws[k].WellFormed()
    requires forall j :: 0 <= j < |counts| ==> counts[j].PrintedNumstat? && counts[j].WellFormed()
    requires |places| == |counts| && forall i, j :: 0 <= i < j < |places| ==> places[i] != places[j]
    requires forall j :: 0 <= j < |counts| ==> places[j] < |raws| && counts[j].name == raws[places[j]].name
    ensures CountsOf(Meanings(raws), Meanings(counts), places)
  {
    RawsMean(raws);
    StatsMean(counts);
    var records, stats := Meanings(raws), Meanings(counts);
    hide Printed.WellFormed, Meanings;
    forall j | 0 <= j < |stats|
      ensures stats[j].Numstat? && places[j] < |records| && stats[j].name == records[places[j]].name
    {
    }
  }

  lemma CountedShows(paths: seq<GitPath>, raws: seq<Printed>, stats: seq<Record>, places: seq<nat>, k: nat)
    requires forall k :: 0 <= k < |raws| ==> raws[k].PrintedRaw? && raws[k].WellFormed() && !IsDrive(raws[k].name)
    requires |Meanings(raws)| == |raws| && CountsOf(Meanings(raws), stats, places)
    requires forall k :: 0 <= k < |raws| ==> Meanings(raws)[k].Raw?
    requires Counted(paths, Meanings(raws), stats, places) && k < |raws|
    ensures |paths| == |raws| && Shows(paths[k], raws[k])
  {
    hide Printed.WellFormed, Meanings, Shows, NewPath, IsDrive;
    MeaningsAre(raws);
    RecordIsShown(raws[k]);
    SameShown(NewPath(raws[k].Meaning()), paths[k], raws[k]);
  }

  /** A printed log, raw records of different files first and then line counts of some of them, is
      read without error, and each path shows what was printed for it. */
  lemma LogIsListed(raws: seq<Printed>, counts: seq<Printed>, places: seq<nat>, merge: bool)
    requires (forall k :: 0 <= k < |raws| ==> raws[k].WellFormed()) && DifferentFiles(raws, merge)
    requires forall j :: 0 <= j < |counts| ==> counts[j].PrintedNumstat? && counts[j].WellFormed()
    requires |places| == |counts| && forall i, j :: 0 <= i < j < |places| ==> places[i] != places[j]
    requires forall j :: 0 <= j < |counts| ==> places[j] < |raws| && counts[j].name == raws[places[j]].name
    ensures Records(Print(raws + counts)).Some?
    ensures var paths := ApplyAll(Records(Print(raws + counts)).value, merge).paths;
            && |paths| == |raws|
            && (forall k :: 0 <= k < |raws| ==> Shows(paths[k], raws[k]))
            && (forall j :: 0 <= j < |counts| ==>
                  paths[places[j]].statAdd == counts[j].added && paths[places[j]].statDel == counts[j].removed)
            && (forall k :: 0 <= k < |raws| && k !in places ==> paths[k].statAdd == [] && paths[k].statDel == [])
  {
    hide Printed.WellFormed, Meanings, Records, ApplyAll, Print, Shows, NewPath, Unrepeated, CountsOf;
    LogIsRead(raws, counts);
    CountsMean(raws, counts, places);
    RawsMean(raws);
    StatsMean(counts);
    DifferentIsUnrepeated(raws, merge);
    var records, stats := Meanings(raws), Meanings(counts);
    StatsAreListed(records, stats, places, merge);
    var paths := ApplyAll(records + stats, merge).paths;
    forall k | 0 <= k < |raws| ensures |paths| == |raws| && Shows(paths[k], raws[k]) {
      CountedShows(paths, raws, stats, places, k);
    }
  }

  lemma SameShown(a: GitPath, c: GitPath, p: Printed)
    requires p.PrintedRaw? && p.WellFormed() && Shows(a, p) && c.(statAdd := [], statDel := []) == a
    ensures Shows(c, p)
  {
  }

  // ---------------------------------------------------------------- a file that is mentioned again

  /** A further record adds what it says to the path, except that a renamed file of a merge is not
      also added or deleted; and it may turn out to be a directory, or not to be one. */
  ghost predicate Adds(before: GitPath, after: GitPath, p: Printed, merge: bool)
    requires p.PrintedRaw? && p.WellFormed()
  {
    && after == before.(action := after.action, isDirectory := after.isDirectory)
    && (forall flag :: flag in after.action <==>
          || flag in before.action || (flag == Merged && p.merged)
          || (Says(p.status, flag) && !(merge && before.action == {Replaced} && (p.status == "A" || p.status == "D"))))
    && (after.isDirectory <==>
          if before.isDirectory then
            (p.modeOld == "000000" || HasDirBit(p.modeOld)) && (p.modeNew == "000000" || HasDirBit(p.modeNew))
          else HasDirBit(p.modeNew))
  }

  lemma UpdateAdds(before: GitPath, p: Printed, merge: bool)
    requires p.PrintedRaw? && p.WellFormed()
    ensures Adds(before, Updated(before, p.Meaning(), merge), p, merge)
  {
    assert p.status == [p.status[0]];
    SaysIs(p.status[0]);
    DirBitIs(p.modeOld);
    DirBitIs(p.modeNew);
    hide ParseStatus, IsDirMode, OctalDigits;
    assert p.modeNew == "000000" ==> !HasDirBit(p.modeNew);
  }

  /** The path that was added is found by its name, and with `merge` by the name it had before unless
      that is another path's; all other names lead where they did. */
  ghost predicate FoundBy(s: Paths, s': Paths, p: Printed, merge: bool) {
    && s'.duplicates.Keys == s.duplicates.Keys + {p.name} + (if merge && p.oldName != [] then {p.oldName} else {})
    && forall name :: name in s'.duplicates ==>
         s'.duplicates[name] == if name in s.duplicates then s.duplicates[name] else |s.paths|
  }

  lemma NewIsFound(s: Paths, p: Printed, merge: bool)
    requires s.InRange() && p.PrintedRaw? && p.WellFormed() && !IsDrive(p.name) && p.name !in s.duplicates
    ensures FoundBy(s, Apply(s, p.Meaning(), merge), p, merge)
  {
    hide ParseStatus, IsDirMode, OctalDigits;
  }

  /** One more record of a printed log: a file that was mentioned before keeps its place, and any
      other one is listed at the end. */
  lemma LogGoesOn(printed: seq<Printed>, p: Printed, merge: bool)
    requires (forall k :: 0 <= k < |printed| ==> printed[k].WellFormed()) && p.PrintedRaw? && p.WellFormed()
    ensures Records(Print(printed)).Some? && Records(Print(printed + [p])).Some?
    ensures var s, s' := ApplyAll(Records(Print(printed)).value, merge), ApplyAll(Records(Print(printed + [p])).value, merge);
            if p.name in s.duplicates then
              var k := s.duplicates[p.name];
              && |s'.paths| == |s.paths| && s'.paths == s.paths[k := s'.paths[k]] && s'.duplicates == s.duplicates
              && Adds(s.paths[k], s'.paths[k], p, merge)
            else
              && |s'.paths| == |s.paths| + 1 && s'.paths[..|s.paths|] == s.paths
              && (!IsDrive(p.name) ==> Shows(s'.paths[|s.paths|], p) && FoundBy(s, s', p, merge))
              && (IsDrive(p.name) ==> s'.paths[|s.paths|].name == p.name + "/")
  {
    RecordsReadBack(printed);
    RecordsReadBack(printed + [p]);
    MeaningsJoin(printed, [p]);
    assert Meanings([p]) == [p.Meaning()];
    var records := Meanings(printed);
    var s := ApplyAll(records, merge);
    assert (records + [p.Meaning()])[..|records|] == records;
    if p.name in s.duplicates {
      UpdateAdds(s.paths[s.duplicates[p.name]], p, merge);
    } else if !IsDrive(p.name) {
      RecordIsShown(p);
      NewIsFound(s, p, merge);
    }
    hide Printed.WellFormed, Meanings, Records, Print, Adds, Shows, FoundBy, Updated;
  }

  /** And one more line count: it is kept with its file, or lists the file without any action. */
  lemma CountGoesOn(printed: seq<Printed>, p: Printed, merge: bool)
    requires (forall k :: 0 <= k < |printed| ==> printed[k].WellFormed()) && p.PrintedNumstat? && p.WellFormed()
    requires !IsDrive(p.name)
    ensures Records(Print(printed)).Some? && Records(Print(printed + [p])).Some?
    ensures var s, s' := ApplyAll(Records(Print(printed)).value, merge), ApplyAll(Records(Print(printed + [p])).value, merge);
            if p.name in s.duplicates then
              var k := s.duplicates[p.name];
              s'.paths == s.paths[k := s.paths[k].(statAdd := p.added, statDel := p.removed)]
            else s'.paths == s.paths + [GitPath(p.name, p.oldName, {}, false, p.added, p.removed)]
  {
    RecordsReadBack(printed);
    RecordsReadBack(printed + [p]);
    MeaningsJoin(printed, [p]);
    assert Meanings([p]) == [p.Meaning()];
    var records := Meanings(printed);
    assert (records + [p.Meaning()])[..|records|] == records;
    hide Printed.WellFormed, Meanings, Records, Print;
  }
}
