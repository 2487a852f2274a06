/** The status shown for a file or a folder, computed from the index, the tree of HEAD and the
    files on disk. */
module FolderStatus {
  import opened Options
  import opened SortVector

  datatype Status = NoStatus | Unversioned | Ignored | Normal | Added | Deleted | Modified | Conflicted
  {
    function Ranking(): nat {
      match this
      case NoStatus => 0
      case Unversioned => 1
      case Ignored => 2
      case Normal => 6
      case Added => 6
      case Deleted => 8
      case Modified => 10
      case Conflicted => 12
    }
  }

  function GetMoreImportant(a: Status, b: Status): Status {
    if a.Ranking() >= b.Ranking() then a else b
  }

  /** The statuses from the least to the most important one. */
  const BY_IMPORTANCE: seq<Status> := [NoStatus, Unversioned, Ignored, Normal, Deleted, Modified, Conflicted]

  lemma ImportanceIs(i: nat, j: nat)
    requires i < |BY_IMPORTANCE| && j < |BY_IMPORTANCE|
    ensures GetMoreImportant(BY_IMPORTANCE[i], BY_IMPORTANCE[j]) == BY_IMPORTANCE[if i >= j then i else j]
    ensures GetMoreImportant(Added, BY_IMPORTANCE[i]) == if i <= 3 then Added else BY_IMPORTANCE[i]
    ensures GetMoreImportant(BY_IMPORTANCE[i], Added) == if i >= 3 then BY_IMPORTANCE[i] else Added
  {
  }

  /** A folder in which something was added or deleted is a modified folder. */
  function AdjustFolderStatus(s: Status): Status {
    if s == Deleted || s == Added then Modified else s
  }

  type Hash = nat

  datatype Entry = Entry(
    name: Key, hash: Hash, stage: bv2, skipWorktree: bool, assumeValid: bool, intentToAdd: bool,
    isLink: bool, size: nat, modifyTime: nat)

  datatype Index = Index(entries: seq<Entry>, hasConflicts: bool)

  datatype TreeItem = TreeItem(name: Key, hash: Hash)

  function Names(entries: seq<Entry>): (r: seq<Key>)
    ensures |r| == |entries|
  {
    seq(|entries|, i requires 0 <= i < |entries| => entries[i].name)
  }

  function TreeNames(tree: seq<TreeItem>): (r: seq<Key>)
    ensures |r| == |tree|
  {
    seq(|tree|, i requires 0 <= i < |tree| => tree[i].name)
  }

  datatype FileInfo = Missing | OnDisk(isDir: bool, isSymlink: bool, time: nat, size: nat)

  datatype Hashing = CannotOpen | SameContent | OtherContent

  /** The files, what hashing them would find, and the settings that matter. */
  datatype Disk = Disk(files: map<Key, FileInfo>, hashes: map<Key, Hashing>, noSymlinks: bool, hasConfig: bool, maxCheckSize: nat)
  {
    function Info(name: Key): FileInfo { if name in files then files[name] else Missing }
    function Content(name: Key): Hashing { if name in hashes then hashes[name] else OtherContent }
  }

  // ---------------------------------------------------------------- one file

  /** The status of an index entry, given what its file looks like; None is an error. */
  function EntryStatus(e: Entry, time: nat, fileSize: int, isSymlink: bool, disk: Disk): Option<Status> {
    var status :=
      if e.skipWorktree || e.assumeValid then Some(Normal)
      else if fileSize == -1 then Some(Deleted)
      else if (isSymlink && !e.isLink) || (!disk.noSymlinks && isSymlink != e.isLink) then Some(Modified)
      else if !isSymlink && fileSize % 0x1_0000_0000 != e.size then Some(Modified)
      else if time % 0x1_0000_0000 == e.modifyTime then Some(Normal)
      else if disk.hasConfig && fileSize < disk.maxCheckSize then
        match disk.Content(e.name)
        case CannotOpen => None
        case SameContent => Some(Normal)
        case OtherContent => Some(Modified)
      else Some(Modified);
    if status.None? then None
    else if e.stage != 0 then Some(Conflicted)
    else if e.intentToAdd then Some(Added)
    else status
  }

  predicate EndsWithSlash(name: Key) { |name| > 0 && name[|name| - 1] == '/' }

  /** Directories count for themselves only where the index knows a submodule. */
  predicate TakenAsFile(name: Key, disk: Disk) {
    match disk.Info(name)
    case Missing => true
    case OnDisk(isDir, isSymlink, _, _) =>
      !isDir || (isSymlink && !disk.noSymlinks) || (!EndsWithSlash(name) && !disk.noSymlinks)
  }

  /** The status of an entry against the working tree. */
  function WorkStatus(e: Entry, disk: Disk): Option<Status> {
    if TakenAsFile(e.name, disk) then
      match disk.Info(e.name)
      case Missing => EntryStatus(e, 0, -1, false, disk)
      case OnDisk(_, isSymlink, time, size) => EntryStatus(e, time, size, isSymlink, disk)
    else if EndsWithSlash(e.name) then Some(Normal)
    else None
  }

  /** A side of a conflict shows as conflicted, except that a submodule whose directory exists
      shows as normal. */
  lemma ConflictOfFile(e: Entry, disk: Disk)
    requires e.stage != 0 && WorkStatus(e, disk).Some?
    ensures WorkStatus(e, disk) == Some(Conflicted) <==> TakenAsFile(e.name, disk)
    ensures WorkStatus(e, disk) != Some(Conflicted) ==> WorkStatus(e, disk) == Some(Normal) && EndsWithSlash(e.name)
  {
  }

  /** And against the tree of HEAD as well, if that is asked for. */
  function FullStatus(e: Entry, tree: Option<seq<TreeItem>>, pos: int, disk: Disk, full: bool): Option<Status>
    requires tree.Some? ==> pos < |tree.value|
  {
    match WorkStatus(e, disk)
    case None => None
    case Some(status) =>
      if (status == Normal || status == Modified) && full then
        if tree.None? then None
        else if pos < 0 then Some(Added)
        else if tree.value[pos].hash != e.hash then Some(Modified)
        else Some(status)
      else Some(status)
  }

  /** The status of a name that is not in the index. */
  function OutsideIndex(name: Key, tree: Option<seq<TreeItem>>, pos: int, disk: Disk, full: bool, ignore: bool, ignored: bool): Option<Status> {
    if !TakenAsFile(name, disk) && !EndsWithSlash(name) then None
    else if full && tree.None? then None
    else if full && pos >= 0 then Some(Deleted)
    else if ignore && ignored then Some(Ignored)
    else Some(Unversioned)
  }

  /** The status that follows from where the name is found in the index and in the tree. */
  ghost predicate StatusIs(index: Index, tree: Option<seq<TreeItem>>, disk: Disk, name: Key, full: bool, ignore: bool, ignored: bool,
                           pos: int, treePos: int, status: Status, error: bool) {
    && Found(Names(index.entries), name, false, pos)
    && (tree.Some? ==> Found(TreeNames(tree.value), name, false, treePos))
    && var expected := if pos == NPOS then OutsideIndex(name, tree, treePos, disk, full, ignore, ignored)
                       else FullStatus(index.entries[pos], tree, treePos, disk, full);
       error == expected.None? && status == if error then NoStatus else expected.value
  }

  /** `ignored` tells whether the ignore rules apply to the name. */
  method GetFileStatus(index: Index, tree: Option<seq<TreeItem>>, disk: Disk, name: Key, full: bool, ignore: bool, ignored: bool)
    returns (status: Status, error: bool)
    requires Sorted(Names(index.entries)) && (tree.Some? ==> Sorted(TreeNames(tree.value)))
    ensures exists pos: int, treePos: int :: StatusIs(index, tree, disk, name, full, ignore, ignored, pos, treePos, status, error)
  {
    ghost var treePos := NPOS;
    if tree.Some? {
      treePos := SearchInSortVector(TreeNames(tree.value), name, false);
    }
    status, error := NoStatus, true;
    var pos := SearchInSortVector(Names(index.entries), name, false);
    if pos == NPOS {
      if TakenAsFile(name, disk) || EndsWithSlash(name) {
        if !full {
          status, error := if ignore && ignored then Ignored else Unversioned, false;
        } else if tree.Some? {
          var inTree := SearchInSortVector(TreeNames(tree.value), name, false);
          treePos := inTree;
          status, error := if inTree != NPOS then Deleted else if ignore && ignored then Ignored else Unversioned, false;
        }
      }
    } else {
      var work := WorkStatus(index.entries[pos], disk);
      if work.Some? {
        status, error := work.value, false;
        if (status == Normal || status == Modified) && full {
          if tree.None? {
            status, error := NoStatus, true;
          } else {
            var start := SearchInSortVector(TreeNames(tree.value), name, false);
            treePos := start;
            if start == NPOS {
              status := Added;
            } else if tree.value[start].hash != index.entries[pos].hash {
              status := Modified;
            }
          }
        }
      }
    }
    assert StatusIs(index, tree, disk, name, full, ignore, ignored, pos, treePos, status, error);
  }

  // ---------------------------------------------------------------- what the status says of a file

  /** There is a directory, and not one that is taken for a link to a directory or, without a slash
      at the end of the name, for a submodule. */
  predicate IsFolder(name: Key, disk: Disk) {
    && name in disk.files && disk.files[name].OnDisk? && disk.files[name].isDir
    && (disk.noSymlinks || (!disk.files[name].isSymlink && |name| > 0 && name[|name| - 1] == '/'))
  }

  predicate IsMissing(name: Key, disk: Disk) { name !in disk.files || disk.files[name].Missing? }

  /** Kind and size are the ones remembered; a link may be a plain file where there are no links,
      and has no size that counts. */
  predicate SameShape(e: Entry, disk: Disk)
    requires !IsMissing(e.name, disk)
  {
    var f := disk.files[e.name];
    && (f.isSymlink == e.isLink || (e.isLink && disk.noSymlinks))
    && (f.isSymlink || f.size % 0x1_0000_0000 == e.size)
  }

  predicate SameTime(e: Entry, disk: Disk)
    requires !IsMissing(e.name, disk)
  {
    disk.files[e.name].time % 0x1_0000_0000 == e.modifyTime
  }

  /** The time differs, and the file is small enough to be hashed. */
  predicate Hashed(e: Entry, disk: Disk)
    requires !IsMissing(e.name, disk)
  {
    SameShape(e, disk) && !SameTime(e, disk) && disk.hasConfig && disk.files[e.name].size < disk.maxCheckSize
  }

  /** The file cannot be read for hashing. */
  predicate Unreadable(e: Entry, disk: Disk) {
    !IsMissing(e.name, disk) && Hashed(e, disk) && e.name in disk.hashes && disk.hashes[e.name].CannotOpen?
  }

  /** Kind and size agree, and the time as well or the content that was hashed. */
  predicate Unchanged(e: Entry, disk: Disk) {
    && !IsMissing(e.name, disk) && SameShape(e, disk)
    && (SameTime(e, disk) || (Hashed(e, disk) && e.name in disk.hashes && disk.hashes[e.name].SameContent?))
  }

  /** The status of an entry against the working tree, and when there is none. */
  ghost predicate ShowsWork(e: Entry, disk: Disk, status: Status, error: bool) {
    var folder, flagged := IsFolder(e.name, disk), e.skipWorktree || e.assumeValid;
    var plain := !folder && e.stage == 0 && !e.intentToAdd;
    && (error <==> if folder then |e.name| == 0 || e.name[|e.name| - 1] != '/' else !flagged && Unreadable(e, disk))
    && (!error ==>
          && (status == Conflicted <==> !folder && e.stage != 0)
          && (status == Added <==> !folder && e.stage == 0 && e.intentToAdd)
          && (status == Deleted <==> plain && !flagged && IsMissing(e.name, disk))
          && (status == Modified <==> plain && !flagged && !IsMissing(e.name, disk) && !Unchanged(e, disk))
          && (status == Normal <==> folder || (plain && (flagged || Unchanged(e, disk)))))
  }

  lemma WorkShown(e: Entry, disk: Disk)
    ensures ShowsWork(e, disk, if WorkStatus(e, disk).None? then NoStatus else WorkStatus(e, disk).value, WorkStatus(e, disk).None?)
  {
  }

  ghost predicate InHead(tree: seq<TreeItem>, name: Key) {
    exists k: nat :: k < |tree| && tree[k].name == name
  }

  /** What GetFileStatus says of a file that the index knows by one entry: how it differs from the
      entry, and if it was asked for, how the entry differs from HEAD, unless the file is missing,
      new or in conflict anyway. */
  lemma IndexedFileShows(index: Index, tree: Option<seq<TreeItem>>, disk: Disk, i: nat, full: bool, ignore: bool, ignored: bool,
                         status: Status, error: bool)
    requires i < |index.entries| && (tree.Some? ==> WellFormedTree(tree.value))
    requires forall j: nat :: j < |index.entries| && index.entries[j].name == index.entries[i].name ==> j == i
    requires exists pos: int, treePos: int ::
               StatusIs(index, tree, disk, index.entries[i].name, full, ignore, ignored, pos, treePos, status, error)
    ensures var e := index.entries[i];
            exists work: Status, failed: bool ::
              && ShowsWork(e, disk, work, failed)
              && var compared := full && !failed && (work == Normal || work == Modified);
                 && (error <==> failed || (compared && tree.None?))
                 && (!error && !compared ==> status == work)
                 && (!error && compared ==>
                       && (!InHead(tree.value, e.name) ==> status == Added)
                       && (InHead(tree.value, e.name) && !Committed(e, tree.value) ==> status == Modified)
                       && (Committed(e, tree.value) ==> status == work))
  {
    var e := index.entries[i];
    var pos: int, treePos: int :| StatusIs(index, tree, disk, e.name, full, ignore, ignored, pos, treePos, status, error);
    hide WorkStatus;
    assert pos == i by {
      assert Matches(Names(index.entries)[i], e.name, false);
      assert Names(index.entries)[pos] == e.name;
    }
    if tree.Some? {
      CommittedAt(e, tree.value, treePos);
      HeadAt(e.name, tree.value, treePos);
    }
    WorkShown(e, disk);
    var work, failed := if WorkStatus(e, disk).None? then NoStatus else WorkStatus(e, disk).value, WorkStatus(e, disk).None?;
    hide ShowsWork, Committed, InHead;
    assert ShowsWork(e, disk, work, failed);
  }

  lemma HeadAt(name: Key, tree: seq<TreeItem>, pos: int)
    requires Found(TreeNames(tree), name, false, pos)
    ensures InHead(tree, name) <==> pos != NPOS
  {
    if pos == NPOS {
      forall k: nat | k < |tree| ensures tree[k].name != name {
        assert !Matches(TreeNames(tree)[k], name, false);
      }
    } else {
      assert Matches(TreeNames(tree)[pos], name, false);
      assert tree[pos].name == name;
    }
  }

  /** What it says of a file that is in conflict. */
  lemma ConflictShows(index: Index, tree: Option<seq<TreeItem>>, disk: Disk, name: Key, full: bool, ignore: bool, ignored: bool,
                      status: Status, error: bool)
    requires IsIndexed(name, index) && !IsFolder(name, disk)
    requires forall i: nat :: i < |index.entries| && index.entries[i].name == name ==> index.entries[i].stage != 0
    requires exists pos: int, treePos: int ::
               StatusIs(index, tree, disk, name, full, ignore, ignored, pos, treePos, status, error)
    ensures !error ==> status == Conflicted
  {
    var pos: int, treePos: int :| StatusIs(index, tree, disk, name, full, ignore, ignored, pos, treePos, status, error);
    IndexedAt(name, index, pos);
    assert Names(index.entries)[pos] == name;
  }

  /** And of a name that the index does not know. */
  lemma OtherFileShows(index: Index, tree: Option<seq<TreeItem>>, disk: Disk, name: Key, full: bool, ignore: bool, ignored: bool,
                       status: Status, error: bool)
    requires !IsIndexed(name, index)
    requires exists pos: int, treePos: int ::
               StatusIs(index, tree, disk, name, full, ignore, ignored, pos, treePos, status, error)
    ensures error <==> (full && tree.None?) || (IsFolder(name, disk) && (|name| == 0 || name[|name| - 1] != '/'))
    ensures !error ==>
              var deleted := full && InHead(tree.value, name);
              && (status == Deleted <==> deleted)
              && (status == Ignored <==> !deleted && ignore && ignored)
              && (status == Unversioned <==> !deleted && !(ignore && ignored))
  {
    var pos: int, treePos: int :| StatusIs(index, tree, disk, name, full, ignore, ignored, pos, treePos, status, error);
    IndexedAt(name, index, pos);
    if tree.Some? {
      HeadAt(name, tree.value, treePos);
    }
  }

  // ---------------------------------------------------------------- a folder, by definition

  /** A name is below the folder, whose path ends with a slash unless it is the root. */
  predicate Below(path: Key, name: Key) { path <= name }

  ghost predicate HasEntries(index: Index, path: Key) {
    exists i: nat :: i < |index.entries| && Below(path, index.entries[i].name)
  }

  ghost predicate HasConflict(index: Index, path: Key) {
    exists i: nat :: i < |index.entries| && Below(path, index.entries[i].name) && index.entries[i].stage != 0
  }

  /** The entry is committed as it is. */
  ghost predicate Committed(e: Entry, tree: seq<TreeItem>) {
    exists k: nat :: k < |tree| && tree[k].name == e.name && tree[k].hash == e.hash
  }

  ghost predicate IsIndexed(name: Key, index: Index) {
    exists i: nat :: i < |index.entries| && index.entries[i].name == name
  }

  ghost predicate InTree(tree: seq<TreeItem>, path: Key) {
    exists k: nat :: k < |tree| && Below(path, tree[k].name)
  }

  /** Something below the folder is to be committed. */
  ghost predicate StagedChange(index: Index, tree: seq<TreeItem>, path: Key) {
    || (exists i: nat :: i < |index.entries| && Below(path, index.entries[i].name) && !Committed(index.entries[i], tree))
    || (exists k: nat :: k < |tree| && Below(path, tree[k].name) && !IsIndexed(tree[k].name, index))
  }

  function Slashes(s: string): nat {
    if |s| == 0 then 0 else (if s[0] == '/' then 1 else 0) + Slashes(s[1..])
  }

  /** Without recursion only the files and submodules right in the folder are looked at. */
  predicate LookedAt(name: Key, path: Key, recursive: bool)
    requires Below(path, name)
  {
    || recursive
    || '/' !in name[|path|..]
    || (|path| == 0 && name[0] == '/')   // a slash at index 0 does not count
    || (EndsWithSlash(name) && Slashes(name[|path|..]) == 1)
  }

  /** Without recursion these are the names without a slash after the folder's path, those with
      one at their end only, and in the root those that begin with one. */
  lemma LookedAtIs(path: Key, rest: Key)
    requires path == [] ==> |rest| > 0
    ensures Below(path, path + rest) && LookedAt(path + rest, path, true)
    ensures LookedAt(path + rest, path, false) <==>
              || (forall i :: 0 <= i < |rest| ==> rest[i] != '/')
              || (|rest| > 0 && rest[|rest| - 1] == '/' && forall i :: 0 <= i < |rest| - 1 ==> rest[i] != '/')
              || (path == [] && rest[0] == '/')
  {
    assert (path + rest)[|path|..] == rest;
    if |rest| > 0 && rest[|rest| - 1] == '/' {
      assert rest == rest[..|rest| - 1] + "/";
      SlashesBefore(rest[..|rest| - 1]);
      assert (path + rest)[|path + rest| - 1] == '/';
    } else if |rest| > 0 {
      assert (path + rest)[|path + rest| - 1] == rest[|rest| - 1];
    } else {
      assert path + rest == path;
    }
    hide Slashes;
  }

  lemma {:induction false} SlashesBefore(s: string)
    ensures Slashes(s + "/") == 1 <==> forall i :: 0 <= i < |s| ==> s[i] != '/'
    ensures Slashes(s + "/") >= 1
  {
    if |s| == 0 {
      assert s + "/" == "/" && "/"[1..] == [];
    } else {
      assert (s + "/")[1..] == s[1..] + "/";
      SlashesBefore(s[1..]);
    }
  }

  /** The file is new to the index, missing or changed. */
  ghost predicate Differs(e: Entry, disk: Disk) {
    var flagged := e.skipWorktree || e.assumeValid;
    && !IsFolder(e.name, disk) && (flagged || !Unreadable(e, disk))
    && (e.intentToAdd || (!flagged && (IsMissing(e.name, disk) || !Unchanged(e, disk))))
  }

  /** Some file below the folder differs from the index. */
  ghost predicate WorkChange(index: Index, disk: Disk, path: Key, recursive: bool) {
    exists i: nat ::
      i < |index.entries| && Below(path, index.entries[i].name)
      && LookedAt(index.entries[i].name, path, recursive) && Differs(index.entries[i], disk)
  }

  predicate IsChange(status: Option<Status>) {
    status == Some(Added) || status == Some(Deleted) || status == Some(Modified)
  }

  lemma DiffersIs(e: Entry, disk: Disk)
    requires e.stage == 0
    ensures Differs(e, disk) <==> IsChange(WorkStatus(e, disk))
  {
    WorkShown(e, disk);
    hide WorkStatus, Unchanged, Unreadable, IsMissing, IsFolder;
  }

  /** The status of a folder: conflicted if anything below is, else modified if anything below
      differs, else normal; and what a folder without any entries is. None is an error. */
  ghost function StatusOfFolder(index: Option<Index>, tree: Option<seq<TreeItem>>, disk: Disk, path: Key,
                                full: bool, recursive: bool, ignore: bool, ignored: bool): Option<Status> {
    if index.None? then None
    else if HasEntries(index.value, path) then
      if HasConflict(index.value, path) then Some(Conflicted)
      else if full && tree.None? then None
      else if (full && StagedChange(index.value, tree.value, path)) || WorkChange(index.value, disk, path, recursive)
      then Some(Modified)
      else Some(Normal)
    else if !ignore then Some(if path == [] then Normal else Unversioned)
    else if tree.None? then None
    else if InTree(tree.value, path) then Some(Modified)
    else if path == [] then Some(Normal)
    else Some(if ignored then Ignored else Unversioned)
  }

  // ---------------------------------------------------------------- a folder, as it is computed

  /** Several entries of one name are the sides of a conflict; the tree has no name twice. */
  ghost predicate WellFormed(index: Index) {
    && Sorted(Names(index.entries))
    && (index.hasConflicts <==> exists i: nat :: i < |index.entries| && index.entries[i].stage != 0)
    && (forall i, j :: 0 <= i < j < |index.entries| && index.entries[i].name == index.entries[j].name ==>
          index.entries[i].stage != 0 && index.entries[j].stage != 0)
  }

  ghost predicate WellFormedTree(tree: seq<TreeItem>) {
    && Sorted(TreeNames(tree))
    && (forall i, j :: 0 <= i < j < |tree| ==> tree[i].name != tree[j].name)
  }

  /** The flag that m_bHasConflicts is: the stages of all entries, or-ed together. */
  method ReadConflicts(entries: seq<Entry>) returns (hasConflicts: bool)
    ensures hasConflicts <==> exists i: nat :: i < |entries| && entries[i].stage != 0
  {
    var flags: bv2 := 0;
    for i := 0 to |entries|
      invariant flags != 0 <==> exists k: nat :: k < i && entries[k].stage != 0
    {
      flags := flags | entries[i].stage;
    }
    hasConflicts := flags != 0;
  }

  method FindConflict(index: Index, path: Key, start: int, end: int) returns (found: bool)
    requires WellFormed(index) && IsRange(index, path, start, end)
    ensures found <==> HasConflict(index, path)
  {
    var it := start;
    while index.hasConflicts && it <= end
      invariant start <= it <= end + 1
      invariant forall i :: start <= i < it ==> index.entries[i].stage == 0
    {
      if index.entries[it].stage != 0 {
        return true;
      }
      it := it + 1;
    }
    found := false;
  }

  /** The entries from `start` to `end` are the ones below the folder. */
  ghost predicate IsRange(index: Index, path: Key, start: int, end: int) {
    && 0 <= start <= end < |index.entries|
    && forall i: nat :: i < |index.entries| ==> (Below(path, index.entries[i].name) <==> start <= i <= end)
  }

  ghost predicate AllCommitted(index: Index, tree: seq<TreeItem>, first: int, last: int)
    requires 0 <= first && last < |index.entries|
  {
    forall i :: first <= i <= last ==> Committed(index.entries[i], tree)
  }

  /** The tree has one item of a name at most, so a search tells whether an entry is committed. */
  lemma CommittedAt(e: Entry, tree: seq<TreeItem>, pos: int)
    requires WellFormedTree(tree) && Found(TreeNames(tree), e.name, false, pos)
    ensures Committed(e, tree) <==> pos != NPOS && tree[pos].hash == e.hash
  {
    if pos == NPOS {
      forall k: nat | k < |tree| ensures tree[k].name != e.name {
        assert !Matches(TreeNames(tree)[k], e.name, false);
      }
    } else {
      assert Matches(TreeNames(tree)[pos], e.name, false);
      assert tree[pos].name == e.name;
    }
  }

  lemma IndexedAt(name: Key, index: Index, pos: int)
    requires Found(Names(index.entries), name, false, pos)
    ensures IsIndexed(name, index) <==> pos != NPOS
  {
    if pos == NPOS {
      forall i: nat | i < |index.entries| ensures index.entries[i].name != name {
        assert !Matches(Names(index.entries)[i], name, false);
      }
    } else {
      assert Matches(Names(index.entries)[pos], name, false);
    }
  }

  lemma InTreeAt(tree: seq<TreeItem>, path: Key, pos: int)
    requires Found(TreeNames(tree), path, true, pos)
    ensures InTree(tree, path) <==> pos != NPOS
  {
    if pos == NPOS {
      forall k: nat | k < |tree| ensures !Below(path, tree[k].name) {
        assert !Matches(TreeNames(tree)[k], path, true);
      }
    } else {
      assert Matches(TreeNames(tree)[pos], path, true);
      assert Below(path, tree[pos].name);
    }
  }

  lemma HasEntriesAt(index: Index, path: Key, pos: int)
    requires Found(Names(index.entries), path, true, pos)
    ensures HasEntries(index, path) <==> pos != NPOS
  {
    if pos == NPOS {
      forall i: nat | i < |index.entries| ensures !Below(path, index.entries[i].name) {
        assert !Matches(Names(index.entries)[i], path, true);
      }
    } else {
      assert Matches(Names(index.entries)[pos], path, true);
      assert Below(path, index.entries[pos].name);
    }
  }

  /** Looks for an entry that is new or differs from HEAD, and stops at the first one. */
  method CheckAdded(index: Index, tree: seq<TreeItem>, start: int, end: int) returns (status: Status)
    requires 0 <= start <= end < |index.entries| && WellFormedTree(tree)
    ensures status == if AllCommitted(index, tree, start, end) then Normal else Modified
  {
    status := Normal;
    var it := start;
    while it <= end
      invariant start <= it <= end + 1 && status == Normal && AllCommitted(index, tree, start, it - 1)
    {
      var pos := SearchInSortVector(TreeNames(tree), index.entries[it].name, false);
      CommittedAt(index.entries[it], tree, pos);
      if pos == NPOS {
        status := AdjustFolderStatus(GetMoreImportant(Added, status));
        if GetMoreImportant(status, Modified) == status {
          break;
        }
      } else if tree[pos].hash != index.entries[it].hash {
        status := GetMoreImportant(Modified, status);
        break;
      }
      it := it + 1;
    }
  }

  /** Looks for an item of HEAD below the folder that is not in the index any more. */
  method CheckDeleted(index: Index, tree: seq<TreeItem>, path: Key) returns (status: Status)
    requires WellFormed(index) && WellFormedTree(tree)
    ensures status == if !InTree(tree, path) then Added
                      else if (exists k: nat :: k < |tree| && Below(path, tree[k].name) && !IsIndexed(tree[k].name, index))
                      then Deleted else Normal
  {
    status := Normal;
    var pos := SearchInSortVector(TreeNames(tree), path, true);
    InTreeAt(tree, path, pos);
    if pos == NPOS {
      status := GetMoreImportant(Added, status);
      return;
    }
    var ok, first, last := GetRangeInSortVector(TreeNames(tree), path, pos);
    assert forall k: nat :: k < |tree| ==> TreeNames(tree)[k] == tree[k].name;
    var it := first;
    while it <= last
      invariant first <= it <= last + 1 && status == Normal
      invariant forall k :: first <= k < it ==> IsIndexed(tree[k].name, index)
    {
      var found := SearchInSortVector(Names(index.entries), tree[it].name, false);
      IndexedAt(tree[it].name, index, found);
      if found == NPOS {
        status := GetMoreImportant(Deleted, status);
        assert Below(path, tree[it].name) && !IsIndexed(tree[it].name, index);
        return;
      }
      it := it + 1;
    }
  }

  /** Compares the index with HEAD. */
  method CheckStaged(index: Index, tree: seq<TreeItem>, path: Key, start: int, end: int) returns (status: Status)
    requires WellFormed(index) && WellFormedTree(tree) && IsRange(index, path, start, end)
    ensures AdjustFolderStatus(status) == if StagedChange(index, tree, path) then Modified else Normal
    ensures status != Modified ==> AllCommitted(index, tree, start, end) && (status == Normal || status == Deleted)
  {
    status := CheckAdded(index, tree, start, end);
    if status == Normal {
      CommittedInTree(index, tree, path, start);
      status := CheckDeleted(index, tree, path);
    }
  }

  lemma CommittedInTree(index: Index, tree: seq<TreeItem>, path: Key, i: nat)
    requires i < |index.entries| && Below(path, index.entries[i].name) && Committed(index.entries[i], tree)
    ensures InTree(tree, path)
  {
  }

  /** An entry that is no side of a conflict is the only one of its name. */
  lemma OnlyEntry(index: Index, i: nat, pos: int)
    requires WellFormed(index) && i < |index.entries| && index.entries[i].stage == 0
    requires Found(Names(index.entries), index.entries[i].name, false, pos)
    ensures pos == i
  {
    assert Matches(Names(index.entries)[i], index.entries[i].name, false);
    assert Names(index.entries)[pos] == index.entries[i].name;
  }

  lemma NamesSorted(index: Index)
    requires WellFormed(index)
    ensures Sorted(Names(index.entries))
  {
  }

  lemma TreeNamesSorted(tree: seq<TreeItem>)
    requires WellFormedTree(tree)
    ensures Sorted(TreeNames(tree))
  {
  }

  lemma ChangeIs(work: Option<Status>, status: Status)
    requires status == if work.None? then NoStatus else work.value
    ensures IsChange(work) <==> status == Added || status == Modified || status == Deleted
  {
  }

  /** An entry that is committed as it is has the status of its file. */
  lemma OnlyWorkCounts(index: Index, tree: Option<seq<TreeItem>>, disk: Disk, i: nat, full: bool, ignore: bool, status: Status, error: bool)
    requires WellFormed(index) && i < |index.entries| && index.entries[i].stage == 0
    requires full ==> tree.Some? && WellFormedTree(tree.value) && Committed(index.entries[i], tree.value)
    requires exists pos: int, treePos: int ::
               StatusIs(index, tree, disk, index.entries[i].name, full, ignore, false, pos, treePos, status, error)
    ensures status == if WorkStatus(index.entries[i], disk).None? then NoStatus else WorkStatus(index.entries[i], disk).value
  {
    var e := index.entries[i];
    var pos: int, treePos: int :| StatusIs(index, tree, disk, e.name, full, ignore, false, pos, treePos, status, error);
    hide WorkStatus;
    OnlyEntry(index, i, pos);
    if full {
      CommittedAt(e, tree.value, treePos);
    }
  }

  /** Compares the files with the index, and stops at the first that differs. */
  method CheckFiles(index: Index, tree: Option<seq<TreeItem>>, disk: Disk, path: Key, start: int, end: int,
                    full: bool, recursive: bool, ignore: bool, before: Status) returns (status: Status)
    requires WellFormed(index) && (tree.Some? ==> WellFormedTree(tree.value)) && IsRange(index, path, start, end)
    requires !HasConflict(index, path) && (before == Normal || before == Deleted)
    requires full ==> tree.Some? && AllCommitted(index, tree.value, start, end)
    ensures status == if WorkChange(index, disk, path, recursive) then Modified else before
  {
    hide WellFormed, WellFormedTree, WorkStatus, StatusIs, LookedAt, IsChange, Differs;
    status := before;
    var it := start;
    while it <= end
      invariant start <= it <= end + 1 && status == before
      invariant forall i :: start <= i < it && LookedAt(index.entries[i].name, path, recursive) ==>
                  !Differs(index.entries[i], disk)
    {
      var e := index.entries[it];
      NamesSorted(index);
      if tree.Some? {
        TreeNamesSorted(tree.value);
      }
      if LookedAt(e.name, path, recursive) {
        var fileStatus, error := GetFileStatus(index, tree, disk, e.name, full, ignore, false);
        assert e.stage == 0;
        OnlyWorkCounts(index, tree, disk, it, full, ignore, fileStatus, error);
        ChangeIs(WorkStatus(e, disk), fileStatus);
        DiffersIs(e, disk);
        if fileStatus == Added || fileStatus == Modified || fileStatus == Deleted {
          status := AdjustFolderStatus(GetMoreImportant(fileStatus, status));
          return;
        }
      }
      it := it + 1;
    }
  }

  /** The status of a folder, with the shortcuts it takes; AdjustFolderStatus is applied by the
      caller. */
  method GetDirStatus(index: Option<Index>, tree: Option<seq<TreeItem>>, disk: Disk, subpath: Key,
                      full: bool, recursive: bool, ignore: bool, ignored: bool) returns (status: Status, error: bool)
    requires (index.Some? ==> WellFormed(index.value)) && (tree.Some? ==> WellFormedTree(tree.value))
    ensures var path := if subpath == [] || EndsWithSlash(subpath) then subpath else subpath + "/";
            var expected := StatusOfFolder(index, tree, disk, path, full, recursive, ignore, ignored);
            error == expected.None? && AdjustFolderStatus(status) == if error then NoStatus else expected.value
  {
    hide WellFormed, WellFormedTree, HasConflict, StagedChange, WorkChange, AllCommitted, InTree, HasEntries, EndsWithSlash;
    var path := if subpath == [] || EndsWithSlash(subpath) then subpath else subpath + "/";
    if index.None? {
      return NoStatus, true;
    }
    var names := Names(index.value.entries);
    NamesSorted(index.value);
    var pos := SearchInSortVector(names, path, true);
    HasEntriesAt(index.value, path, pos);
    if pos == NPOS {
      status, error := StatusWithoutEntries(tree, path, ignore, ignored);
      return;
    }
    var ok, start, end := GetRangeInSortVector(names, path, pos);
    assert forall i: nat :: i < |names| ==> names[i] == index.value.entries[i].name;
    assert IsRange(index.value, path, start, end);
    var conflict := FindConflict(index.value, path, start, end);
    if conflict {
      return Conflicted, false;
    }
    status := Normal;
    if full {
      if tree.None? {
        return NoStatus, true;
      }
      status := CheckStaged(index.value, tree.value, path, start, end);
    }
    error := false;
    var mostImportant := AdjustFolderStatus(GetMoreImportant(Added, GetMoreImportant(Modified, Deleted)));
    if mostImportant == status {
      return;
    }
    status := CheckFiles(index.value, tree, disk, path, start, end, full, recursive, ignore, status);
  }

  method StatusWithoutEntries(tree: Option<seq<TreeItem>>, path: Key, ignore: bool, ignored: bool) returns (status: Status, error: bool)
    requires tree.Some? ==> WellFormedTree(tree.value)
    ensures error <==> ignore && tree.None?
    ensures status == if !ignore then (if path == [] then Normal else Unversioned)
                      else if tree.None? then NoStatus
                      else if InTree(tree.value, path) then Deleted
                      else if path == [] then Normal
                      else if ignored then Ignored else Unversioned
  {
    error := false;
    if !ignore {
      status := if path == [] then Normal else Unversioned;
      return;
    }
    if tree.None? {
      return NoStatus, true;
    }
    var pos := SearchInSortVector(TreeNames(tree.value), path, true);
    InTreeAt(tree.value, path, pos);
    if pos != NPOS {
      return Deleted, false;
    }
    if path == [] {
      return Normal, false;
    }
    status := if ignored then Ignored else Unversioned;
  }

  /** A folder is at least as important as any folder inside it, looked at in full depth. */
  lemma ParentIsNoLess(index: Index, tree: Option<seq<TreeItem>>, disk: Disk, path: Key, inner: Key,
                       full: bool, ignore: bool, ignored: bool, innerIgnored: bool)
    requires Below(path, inner) && HasEntries(index, inner)
    ensures HasEntries(index, path)
    ensures var parent := StatusOfFolder(Some(index), tree, disk, path, full, true, ignore, ignored);
            var child := StatusOfFolder(Some(index), tree, disk, inner, full, true, ignore, innerIgnored);
            parent.Some? && child.Some? ==> GetMoreImportant(parent.value, child.value) == parent.value
  {
    hide Differs, Committed, IsIndexed;
    assert forall name :: Below(inner, name) ==> Below(path, name);
  }
}
