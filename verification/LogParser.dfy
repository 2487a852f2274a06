/** The list of changed paths that is built from the records of a log. */
module LogParser {
  import opened Bytes
  import opened Options
  import opened LogRecords

  /** The bits of the action mask of a path. */
  datatype Flag = Added | Modified | Replaced | Deleted | Unmerged | Copy | Merged

  type Actions = set<Flag>

  function ParseStatus(status: char): Actions {
    match status
    case 'M' => {Modified}
    case 'R' => {Replaced}
    case 'A' => {Added}
    case 'D' => {Deleted}
    case 'U' => {Unmerged}
    case 'K' => {Deleted}
    case 'C' => {Copy}
    case 'T' => {Modified}
    case _ => {}
  }

  /** The directory bit of a mode, in two's complement. */
  predicate IsDirMode(mode: int) { (mode % 0x1_0000_0000) / 0x4000 % 2 == 1 }

  datatype GitPath = GitPath(name: string, oldName: string, action: Actions, isDirectory: bool, statAdd: string, statDel: string)

  /** The paths listed so far, where each name is to be found, and the actions of all paths. */
  datatype Paths = Paths(paths: seq<GitPath>, duplicates: map<string, nat>, action: Actions)
  {
    predicate InRange() { forall name :: name in duplicates ==> duplicates[name] < |paths| }
  }

  const NoPaths := Paths([], map[], {})

  predicate IsRoot(name: string) { |name| == 2 && name[1] == ':' }

  function Sanitized(name: string): string { if IsRoot(name) then name + "/" else name }

  /** An entry that exists already is left alone. */
  function Inserted(m: map<string, nat>, name: string, k: nat): map<string, nat> {
    if name in m then m else m[name := k]
  }

  /** The path that a raw record is listed as when its name is new. */
  function NewPath(r: Record): GitPath
    requires r.Raw?
  {
    var action := ParseStatus(r.status) + (if r.merged then {Merged} else {});
    var mode := if Deleted in action || Unmerged in action then r.modeOld else r.modeNew;
    GitPath(Sanitized(r.name), r.oldName, action, IsDirMode(mode), [], [])
  }

  /** A path that is mentioned once more. */
  function Updated(p: GitPath, r: Record, merge: bool): GitPath
    requires r.Raw?
  {
    var kept := merge && p.action == {Replaced} && (r.status == 'A' || r.status == 'D');
    var action := if kept then p.action else p.action + ParseStatus(r.status);
    var isDirectory :=
      if p.isDirectory then
        !((r.modeOld != 0 && !IsDirMode(r.modeOld)) || (r.modeNew != 0 && !IsDirMode(r.modeNew)))
      else r.modeNew != 0 && IsDirMode(r.modeNew);
    p.(action := action + (if r.merged then {Merged} else {}), isDirectory := isDirectory)
  }

  /** What one record does to the list; with `merge`, the old name of a renamed file is found as
      the file itself. */
  function Apply(s: Paths, r: Record, merge: bool): (s': Paths)
    requires s.InRange()
    ensures s'.InRange()
  {
    var n := |s.paths|;
    match r
    case Raw(_, _, _, _, oldName, name) =>
      if name in s.duplicates then
        var k := s.duplicates[name];
        var p := Updated(s.paths[k], r, merge);
        s.(paths := s.paths[k := p], action := s.action + p.action)
      else
        var p := NewPath(r);
        var found := Inserted(s.duplicates, p.name, n);
        Paths(s.paths + [p], if merge && oldName != [] then Inserted(found, oldName, n) else found, s.action + p.action)
    case Numstat(added, removed, oldName, name) =>
      var key := Sanitized(name);
      if key in s.duplicates then
        var k := s.duplicates[key];
        s.(paths := s.paths[k := s.paths[k].(statAdd := added, statDel := removed)])
      else
        s.(paths := s.paths + [GitPath(key, oldName, {}, false, added, removed)],
           duplicates := Inserted(s.duplicates, key, n))
  }

  function ApplyAll(records: seq<Record>, merge: bool): (s: Paths)
    ensures s.InRange()
  {
    if |records| == 0 then NoPaths
    else Apply(ApplyAll(records[..|records| - 1], merge), records[|records| - 1], merge)
  }

  /** All records of a log; None if it is malformed. */
  function Records(log: string): Option<seq<Record>>
    decreases |log|
  {
    if |log| == 0 then Some([])
    else
      match ReadRecord(log)
      case None => None
      case Some(first) =>
        match Records(first.1)
        case None => None
        case Some(more) => Some([first.0] + more)
  }

  // ---------------------------------------------------------------- what the list always satisfies

  /** The actions of all paths together. */
  function Union(paths: seq<GitPath>): Actions {
    if |paths| == 0 then {} else Union(paths[..|paths| - 1]) + paths[|paths| - 1].action
  }

  /** Every listed path is found at its own position. */
  ghost predicate OwnPlaces(s: Paths) {
    forall k :: 0 <= k < |s.paths| ==> s.paths[k].name in s.duplicates && s.duplicates[s.paths[k].name] == k
  }

  /** Whatever is found goes by that name, or did so before it was renamed. */
  ghost predicate NamesMatch(s: Paths, merge: bool) {
    s.InRange() && forall name :: name in s.duplicates ==>
      var p := s.paths[s.duplicates[name]];
      p.name == name || (merge && p.oldName == name)
  }

  lemma {:induction false} UnionChanged(paths: seq<GitPath>, k: nat, p: GitPath)
    requires k < |paths| && paths[k].action <= p.action
    ensures Union(paths[k := p]) == Union(paths) + p.action
  {
    var n := |paths| - 1;
    if k == n {
      assert paths[k := p][..n] == paths[..n];
    } else {
      assert paths[k := p][..n] == paths[..n][k := p];
      UnionChanged(paths[..n], k, p);
    }
  }

  lemma UnionExtended(paths: seq<GitPath>, p: GitPath)
    ensures Union(paths + [p]) == Union(paths) + p.action
  {
    assert (paths + [p])[..|paths|] == paths;
  }

  lemma ApplyUnion(s: Paths, r: Record, merge: bool)
    requires s.InRange() && s.action == Union(s.paths)
    ensures Apply(s, r, merge).action == Union(Apply(s, r, merge).paths)
  {
    match r
    case Raw(_, _, _, _, oldName, name) =>
      if name in s.duplicates {
        var k := s.duplicates[name];
        UnionChanged(s.paths, k, Updated(s.paths[k], r, merge));
      } else {
        UnionExtended(s.paths, NewPath(r));
      }
    case Numstat(added, removed, oldName, name) =>
      var key := Sanitized(name);
      if key in s.duplicates {
        var k := s.duplicates[key];
        SameActions(s.paths, k, s.paths[k].(statAdd := added, statDel := removed));
      } else {
        UnionExtended(s.paths, GitPath(key, oldName, {}, false, added, removed));
      }
  }

  lemma {:induction false} SameActions(paths: seq<GitPath>, k: nat, p: GitPath)
    requires k < |paths| && paths[k].action == p.action
    ensures Union(paths[k := p]) == Union(paths)
  {
    var n := |paths| - 1;
    if k == n {
      assert paths[k := p][..n] == paths[..n];
    } else {
      assert paths[k := p][..n] == paths[..n][k := p];
      SameActions(paths[..n], k, p);
    }
  }

  /** The actions of the list are those of its paths together. */
  lemma {:induction false} ActionIsUnion(records: seq<Record>, merge: bool)
    ensures ApplyAll(records, merge).action == Union(ApplyAll(records, merge).paths)
  {
    if |records| > 0 {
      var before := records[..|records| - 1];
      ActionIsUnion(before, merge);
      ApplyUnion(ApplyAll(before, merge), records[|records| - 1], merge);
    }
  }

  /** A new path is stored under a name that is taken: a bare drive gets a slash only after it
      has been looked up. */
  predicate Clash(s: Paths, r: Record) {
    r.Raw? && r.name !in s.duplicates && Sanitized(r.name) in s.duplicates
  }

  predicate NoClash(records: seq<Record>, merge: bool) {
    |records| == 0 ||
    (NoClash(records[..|records| - 1], merge) && !Clash(ApplyAll(records[..|records| - 1], merge), records[|records| - 1]))
  }

  lemma ApplyPlaces(s: Paths, r: Record, merge: bool)
    requires s.InRange()
    ensures OwnPlaces(Apply(s, r, merge)) <==> OwnPlaces(s) && !Clash(s, r)
  {
    hide ParseStatus, IsDirMode, Sanitized;
    ApplyKeeps(s, r, merge);
    hide Updated;
    var s' := Apply(s, r, merge);
    if OwnPlaces(s') {
      forall k | 0 <= k < |s.paths|
        ensures s.paths[k].name in s.duplicates && s.duplicates[s.paths[k].name] == k
      {
        assert s'.paths[k].name == s.paths[k].name;
      }
    }
  }

  /** Names and places that are known stay; what is new points to the new path. */
  lemma ApplyKeeps(s: Paths, r: Record, merge: bool)
    requires s.InRange()
    ensures var s' := Apply(s, r, merge);
            && |s.paths| <= |s'.paths| <= |s.paths| + 1
            && (forall k :: 0 <= k < |s.paths| ==> s'.paths[k].name == s.paths[k].name)
            && (forall name :: name in s.duplicates ==> name in s'.duplicates && s'.duplicates[name] == s.duplicates[name])
            && (forall name :: name in s'.duplicates && name !in s.duplicates ==> s'.duplicates[name] == |s.paths|)
            && (|s'.paths| > |s.paths| ==> s'.paths[|s.paths|].name == Sanitized(r.name) && Sanitized(r.name) in s'.duplicates)
            && (|s'.paths| > |s.paths| <==> (if r.Raw? then r.name else Sanitized(r.name)) !in s.duplicates)
  {
    hide ParseStatus, IsDirMode, Sanitized;
  }

  /** Every listed path is found at its own position if and only if there is no clash. */
  lemma {:induction false} PlacesAreExact(records: seq<Record>, merge: bool)
    ensures OwnPlaces(ApplyAll(records, merge)) <==> NoClash(records, merge)
  {
    if |records| > 0 {
      var before := records[..|records| - 1];
      PlacesAreExact(before, merge);
      ApplyPlaces(ApplyAll(before, merge), records[|records| - 1], merge);
    }
  }

  /** No path is listed twice as long as no raw record names a bare drive. */
  lemma {:induction false} PathsAreDistinct(records: seq<Record>, merge: bool)
    requires forall r :: r in records && r.Raw? ==> !IsRoot(r.name)
    ensures NoClash(records, merge)
    ensures forall i, j :: 0 <= i < j < |ApplyAll(records, merge).paths| ==>
              ApplyAll(records, merge).paths[i].name != ApplyAll(records, merge).paths[j].name
  {
    if |records| > 0 {
      PathsAreDistinct(records[..|records| - 1], merge);
    }
    PlacesAreExact(records, merge);
    assert OwnPlaces(ApplyAll(records, merge));
  }

  /** A bare drive that is named twice is listed twice. */
  lemma DriveIsListedTwice(r: Record)
    requires r.Raw? && IsRoot(r.name) && r.oldName == []
    ensures var paths := ApplyAll([r, r], false).paths; |paths| == 2 && paths[0] == paths[1]
  {
    assert [r, r][..1] == [r] && [r][..0] == [];
    assert ApplyAll([], false) == NoPaths;
    assert r.name[1] == ':' && |r.name + "/"| == 3;
    var one := ApplyAll([r], false);
    assert one == Apply(NoPaths, r, false);
    assert r.name !in one.duplicates;
  }

  lemma ApplyMatches(s: Paths, r: Record, merge: bool)
    requires NamesMatch(s, merge)
    ensures NamesMatch(Apply(s, r, merge), merge)
    ensures s.duplicates.Keys <= Apply(s, r, merge).duplicates.Keys
    ensures Sanitized(r.name) in Apply(s, r, merge).duplicates || r.name in Apply(s, r, merge).duplicates
  {
    hide ParseStatus, IsDirMode;
    if r.Raw? && r.name in s.duplicates {
      ChangedMatches(s, s.duplicates[r.name], Updated(s.paths[s.duplicates[r.name]], r, merge), merge);
    } else if r.Numstat? && Sanitized(r.name) in s.duplicates {
      var k := s.duplicates[Sanitized(r.name)];
      ChangedMatches(s, k, s.paths[k].(statAdd := r.added, statDel := r.removed), merge);
    }
  }

  lemma ChangedMatches(s: Paths, k: nat, p: GitPath, merge: bool)
    requires NamesMatch(s, merge) && k < |s.paths| && p.name == s.paths[k].name && p.oldName == s.paths[k].oldName
    ensures NamesMatch(s.(paths := s.paths[k := p]), merge)
  {
  }

  /** No record is lost: its name is that of a listed path, or one that a listed path had before
      it was renamed. */
  lemma {:induction false} NothingIsLost(records: seq<Record>, merge: bool)
    ensures NamesMatch(ApplyAll(records, merge), merge)
    ensures forall r :: r in records ==>
              Sanitized(r.name) in ApplyAll(records, merge).duplicates || r.name in ApplyAll(records, merge).duplicates
  {
    if |records| > 0 {
      var before, last := records[..|records| - 1], records[|records| - 1];
      NothingIsLost(before, merge);
      ApplyMatches(ApplyAll(before, merge), last, merge);
      forall r | r in records ensures Sanitized(r.name) in ApplyAll(records, merge).duplicates || r.name in ApplyAll(records, merge).duplicates {
        if r != last {
          assert r in before;
        }
      }
    }
  }

  // ---------------------------------------------------------------- reading inverts printing

  function Print(printed: seq<Printed>): string {
    if |printed| == 0 then [] else printed[0].Text() + Print(printed[1..])
  }

  function Meanings(printed: seq<Printed>): seq<Record>
    requires forall k :: 0 <= k < |printed| ==> printed[k].WellFormed()
  {
    if |printed| == 0 then [] else [printed[0].Meaning()] + Meanings(printed[1..])
  }

  /** Reading a printed log yields the records it was printed from. */
  lemma {:induction false} RecordsReadBack(printed: seq<Printed>)
    requires forall k :: 0 <= k < |printed| ==> printed[k].WellFormed()
    ensures Records(Print(printed)) == Some(Meanings(printed))
  {
    hide ReadRecord, Printed.Text, Printed.WellFormed, Printed.Meaning;
    if |printed| > 0 {
      ReadsBack(printed[0], Print(printed[1..]));
      RecordsReadBack(printed[1..]);
    }
  }

  /** No raw record mentions a file that was mentioned before. */
  ghost predicate Unrepeated(records: seq<Record>, merge: bool) {
    && (forall k :: 0 <= k < |records| ==> records[k].Raw? && !IsRoot(records[k].name))
    && (forall i, j :: 0 <= i < j < |records| ==>
          records[j].name != records[i].name && (merge ==> records[j].name != records[i].oldName))
  }

  ghost predicate Mentioned(name: string, records: seq<Record>, merge: bool) {
    exists k :: 0 <= k < |records| && (name == records[k].name || (merge && name == records[k].oldName))
  }

  lemma ApplyNew(s: Paths, r: Record, merge: bool)
    requires s.InRange() && r.Raw? && !IsRoot(r.name) && r.name !in s.duplicates
    ensures Apply(s, r, merge).paths == s.paths + [NewPath(r)]
    ensures forall name :: name in Apply(s, r, merge).duplicates ==>
              name in s.duplicates || name == r.name || (merge && name == r.oldName)
  {
  }

  /** One path for each record, in order. */
  function NewPaths(records: seq<Record>): seq<GitPath>
    requires forall k :: 0 <= k < |records| ==> records[k].Raw?
  {
    seq(|records|, k requires 0 <= k < |records| => NewPath(records[k]))
  }

  lemma NewPathsNext(records: seq<Record>)
    requires |records| > 0 && forall k :: 0 <= k < |records| ==> records[k].Raw?
    ensures var n := |records| - 1; NewPaths(records) == NewPaths(records[..n]) + [NewPath(records[n])]
  {
    hide NewPath;
  }

  /** Then the list has one path for each record. */
  lemma {:induction false} EachRecordIsListed(records: seq<Record>, merge: bool)
    requires Unrepeated(records, merge)
    ensures ApplyAll(records, merge).paths == NewPaths(records)
    ensures forall name :: name in ApplyAll(records, merge).duplicates ==> Mentioned(name, records, merge)
  {
    if |records| > 0 {
      var n := |records| - 1;
      var before, last := records[..n], records[n];
      UnrepeatedBefore(records, merge);
      NewPathsNext(records);
      hide Unrepeated, Mentioned, Apply, NewPath, NewPaths, IsRoot;
      EachRecordIsListed(before, merge);
      ApplyNew(ApplyAll(before, merge), last, merge);
      forall name | name in ApplyAll(records, merge).duplicates ensures Mentioned(name, records, merge) {
        MentionedMore(name, records, merge);
      }
    }
  }

  lemma UnrepeatedBefore(records: seq<Record>, merge: bool)
    requires Unrepeated(records, merge) && |records| > 0
    ensures var n := |records| - 1;
            && Unrepeated(records[..n], merge) && !Mentioned(records[n].name, records[..n], merge)
            && records[n].Raw? && !IsRoot(records[n].name)
  {
  }

  lemma MentionedMore(name: string, records: seq<Record>, merge: bool)
    requires |records| > 0
    ensures var n := |records| - 1;
            Mentioned(name, records[..n], merge) || name == records[n].name || (merge && name == records[n].oldName)
            ==> Mentioned(name, records, merge)
  {
    var before, n := records[..|records| - 1], |records| - 1;
    if k :| 0 <= k < n && (name == before[k].name || (merge && name == before[k].oldName)) {
      assert records[k] == before[k];
    }
  }

  /** Reading and listing in one: a printed log whose files are all different is listed as it
      was printed. */
  lemma LogReadsBack(printed: seq<Printed>, merge: bool)
    requires forall k :: 0 <= k < |printed| ==> printed[k].WellFormed()
    requires Unrepeated(Meanings(printed), merge)
    ensures var records := Meanings(printed);
            && Records(Print(printed)) == Some(records)
            && ApplyAll(records, merge).paths == NewPaths(records)
  {
    RecordsReadBack(printed);
    EachRecordIsListed(Meanings(printed), merge);
  }

  // ---------------------------------------------------------------- reading in place

  lemma {:induction false} FindShift(log: string, c: char, pos: nat, k: nat)
    requires pos + k <= |log|
    ensures FindChar(log, c, pos + k) == pos + FindChar(log[pos..], c, k)
    decreases |log| - pos - k
  {
    if pos + k < |log| && log[pos + k] != c {
      FindShift(log, c, pos, k + 1);
    }
  }

  method Find(log: string, c: char, start: nat) returns (r: nat)
    requires start <= |log|
    ensures r == FindChar(log, c, start)
  {
    r := start;
    while r < |log| && log[r] != c
      invariant start <= r <= |log| && FindChar(log, c, start) == FindChar(log, c, r)
    {
      r := r + 1;
    }
  }

  /** Reads the name at `pos`; `next` is where to go on. */
  method NameAt(log: string, pos: nat) returns (name: Option<string>, next: nat)
    requires pos <= |log|
    ensures next <= |log|
    ensures ReadName(log[pos..]) == if name.None? then None else Some((name.value, log[next..]))
  {
    var end := Find(log, NUL, pos);
    FindShift(log, NUL, pos, 0);
    if end == |log| || pos == end || end - pos >= INT_MAX {
      return None, pos;
    }
    assert log[pos..][..end - pos] == log[pos..end] && log[pos..][end - pos + 1..] == log[end + 1..];
    name, next := Some(log[pos..end]), end + 1;
  }

  method NamesAt(log: string, pos: nat, renamed: bool) returns (names: Option<(string, string)>, next: nat)
    requires pos <= |log|
    ensures next <= |log|
    ensures ReadNames(log[pos..], renamed) ==
              if names.None? then None else Some((names.value.0, names.value.1, log[next..]))
  {
    hide ReadName;
    var pathname2 := [];
    next := pos;
    if renamed {
      var oldName, after := NameAt(log, pos);
      if oldName.None? {
        return None, pos;
      }
      pathname2, next := oldName.value, after;
    }
    var pathname1, after := NameAt(log, next);
    if pathname1.None? {
      return None, next;
    }
    names, next := Some((pathname2, pathname1.value)), after;
  }

  /** Reads the raw record whose last colon is at `pos`. */
  method RawAt(log: string, pos: nat, merged: bool) returns (record: Option<Record>, next: nat)
    requires pos < |log|
    ensures next <= |log|
    ensures ReadRaw(log[pos..], merged) == if record.None? then None else Some((record.value, log[next..]))
  {
    hide FindChar, ReadNames, Octal;
    var statusEnd := Find(log, NUL, pos);
    FindShift(log, NUL, pos, 0);
    if statusEnd == |log| || statusEnd - pos < MIN_HEADER {
      return None, pos;
    }
    var modeOld := Octal(log[pos + 1..]);
    var modeNew := Octal(log[pos + 7..]);
    var space := Find(log, ' ', statusEnd - 6);
    FindShift(log, ' ', pos, statusEnd - 6 - pos);
    if space == |log| {
      return None, pos;
    }
    var statusStart := space + 1;
    var end := Find(log, NUL, statusStart);
    FindShift(log, NUL, pos, statusStart - pos);
    if end == |log| || statusStart == end {
      return None, pos;
    }
    var status := log[statusStart];
    assert FindStatus(log[pos..]) == Some((statusStart - pos, end - pos));
    assert log[pos..][end - pos + 1..] == log[end + 1..];
    assert log[pos..][1..] == log[pos + 1..] && Drop(log[pos..], 7) == log[pos + 7..];
    var names, after := NamesAt(log, end + 1, IsRename(status));
    if names.None? {
      return None, pos;
    }
    record, next := Some(Raw(status, merged, modeOld, modeNew, names.value.0, names.value.1)), after;
  }

  /** Reads up to the next tab. */
  method CountAt(log: string, pos: nat) returns (count: Option<string>, next: nat)
    requires pos <= |log|
    ensures next <= |log|
    ensures ReadCount(log[pos..]) == if count.None? then None else Some((count.value, log[next..]))
  {
    var tab := Find(log, '\t', pos);
    FindShift(log, '\t', pos, 0);
    if tab == |log| || tab - pos >= INT_MAX {
      return None, pos;
    }
    assert log[pos..][..tab - pos] == log[pos..tab] && log[pos..][tab - pos + 1..] == log[tab + 1..];
    count, next := Some(log[pos..tab]), tab + 1;
  }

  method NumstatAt(log: string, pos: nat) returns (record: Option<Record>, next: nat)
    requires pos < |log|
    ensures next <= |log|
    ensures ReadNumstat(log[pos..]) == if record.None? then None else Some((record.value, log[next..]))
  {
    hide FindChar, ReadNames, ReadCount;
    var added, pos2 := CountAt(log, pos);
    if added.None? {
      return None, pos;
    }
    var removed, pos3 := CountAt(log, pos2);
    if removed.None? {
      return None, pos;
    }
    if pos3 >= |log| {
      return None, pos;
    }
    var renamed := log[pos3] == NUL;
    if renamed {
      pos3 := pos3 + 1;
      assert log[pos3 - 1..][1..] == log[pos3..];
    }
    var names, after := NamesAt(log, pos3, renamed);
    if names.None? {
      return None, pos;
    }
    record, next := Some(Numstat(added.value, removed.value, names.value.0, names.value.1)), after;
  }

  method RecordAt(log: string, pos: nat) returns (record: Option<Record>, next: nat)
    requires pos < |log|
    ensures next <= |log|
    ensures ReadRecord(log[pos..]) == if record.None? then None else Some((record.value, log[next..]))
    ensures record.Some? ==> pos < next
  {
    hide ReadRaw, ReadNumstat;
    if log[pos] == ':' {
      if pos + 1 >= |log| {
        return None, pos;
      }
      var merged := log[pos + 1] == ':';
      var at := if merged then pos + 1 else pos;
      assert log[pos..][1..] == log[pos + 1..];
      record, next := RawAt(log, at, merged);
    } else {
      record, next := NumstatAt(log, pos);
    }
  }

  class PathList {
    var paths: seq<GitPath>
    var action: Actions

    constructor ()
      ensures paths == [] && action == {}
    {
      paths, action := [], {};
    }

    /** Lists a path or updates the one that is listed already. */
    method Add(r: Record, merge: bool, duplicates: map<string, nat>) returns (found: map<string, nat>)
      requires Paths(paths, duplicates, action).InRange()
      modifies this
      ensures Paths(paths, found, action) == Apply(Paths(old(paths), duplicates, old(action)), r, merge)
    {
      found := duplicates;
      match r
      case Raw(status, merged, modeOld, modeNew, oldName, name) =>
        if name in duplicates {
          var p := paths[duplicates[name]];
          if !(merge && p.action == {Replaced} && (status == 'A' || status == 'D')) {
            p := p.(action := p.action + ParseStatus(status));
          }
          if p.isDirectory && ((modeOld != 0 && !IsDirMode(modeOld)) || (modeNew != 0 && !IsDirMode(modeNew))) {
            p := p.(isDirectory := false);
          } else if !p.isDirectory && modeNew != 0 && IsDirMode(modeNew) {
            p := p.(isDirectory := true);
          }
          if merged {
            p := p.(action := p.action + {Merged});
          }
          assert p.action == Updated(old(paths)[duplicates[name]], r, merge).action;
          assert p == Updated(old(paths)[duplicates[name]], r, merge);
          paths := paths[duplicates[name] := p];
          action := action + p.action;
        } else {
          var path := NewPath(r);
          action := action + path.action;
          paths := paths + [path];
          found := Inserted(found, path.name, |paths| - 1);
          if merge && oldName != [] {
            found := Inserted(found, oldName, |paths| - 1);
          }
        }
      case Numstat(added, removed, oldName, name) =>
        var path := GitPath(Sanitized(name), oldName, {}, false, [], []);
        if path.name in duplicates {
          var k := duplicates[path.name];
          paths := paths[k := paths[k].(statAdd := added, statDel := removed)];
        } else {
          path := path.(statAdd := added, statDel := removed);
          paths := paths + [path];
          found := Inserted(found, path.name, |paths| - 1);
        }
    }

    /** Reads a whole log, whatever it contains. */
    method ParserFromLog(log: string, merge: bool) returns (error: bool)
      modifies this
      ensures error <==> Records(log).None?
      ensures !error ==> var s := ApplyAll(Records(log).value, merge); paths == s.paths && action == s.action
    {
      hide Apply, ReadRecord;
      paths, action := [], {};
      var duplicates := map[];
      var pos := 0;
      ghost var done: seq<Record> := [];
      assert log[0..] == log;
      assert Records(log).Some? ==> [] + Records(log).value == Records(log).value;
      while pos < |log|
        invariant pos <= |log| && Paths(paths, duplicates, action) == ApplyAll(done, merge)
        invariant Joined(log, done, log[pos..])
        decreases |log| - pos
      {
        RecordsFirst(log, done, log[pos..]);
        var record, next := RecordAt(log, pos);
        if record.None? {
          return true;
        }
        assert (done + [record.value])[..|done|] == done;
        duplicates := Add(record.value, merge, duplicates);
        done, pos := done + [record.value], next;
      }
      assert log[pos..] == [];
      assert Records([]) == Some([]) && done + [] == done;
      error := false;
    }
  }

  /** The records of `log` are those read so far and those of what is left. */
  ghost predicate Joined(log: string, done: seq<Record>, left: string) {
    Records(log) == if Records(left).None? then None else Some(done + Records(left).value)
  }

  lemma RecordsFirst(log: string, done: seq<Record>, left: string)
    requires |left| > 0 && Joined(log, done, left)
    ensures match ReadRecord(left)
            case None => Records(log).None?
            case Some(first) => Joined(log, done + [first.0], first.1)
  {
    hide ReadRecord;
    if ReadRecord(left).Some? {
      var first := ReadRecord(left).value;
      if Records(first.1).Some? {
        assert done + ([first.0] + Records(first.1).value) == (done + [first.0]) + Records(first.1).value;
      }
    }
  }
}
