/** The cached HEAD of a repository: how it is read from files that others may change at any
    moment, and how it is decided later whether it is still up to date. */
module HeadCache {
  import opened Bytes
  import opened Options
  import opened PackedRefs

  type Path = string

  /** One version of a file; an unopenable one has attributes but cannot be opened, as is the
      case for a directory. */
  datatype File =
    | Absent
    | Unopenable(mtime: int, unread: nat)
    | Present(mtime: int, content: string)
  {
    function Size(): nat { match this case Absent => 0 case Unopenable(_, n) => n case Present(_, c) => |c| }
  }

  /** Which version of each file there is at each moment. */
  type History = (nat, Path) -> File

  /** The directory of the working tree's own files, and the one shared by all of them. */
  datatype Dirs = Dirs(worktree: Path, admin: Path)
  {
    function HeadPath(): Path { worktree + "HEAD" }
    function PackedPath(): Path { admin + "packed-refs" }
    function RefPath(ref: string): Path { Backslashes(admin + ref) }
  }

  function Backslashes(s: string): (r: string)
    ensures |r| == |s|
  {
    seq(|s|, i requires 0 <= i < |s| => if s[i] == '/' then '\\' else s[i])
  }

  // ---------------------------------------------------------------- content of the HEAD file

  const PREFIX: string := "ref:"
  const MAX_HEAD: nat := 100 * 1024 * 1024

  predicate IsSpace(c: char) { c == ' ' || '\t' <= c <= '\r' }

  function TrimLeft(s: string): string { if |s| > 0 && IsSpace(s[0]) then TrimLeft(s[1..]) else s }

  function TrimRight(s: string): string {
    if |s| > 0 && IsSpace(s[|s| - 1]) then TrimRight(s[..|s| - 1]) else s
  }

  datatype Head = Broken | Detached(hash: Hash) | Symbolic(target: string)
  {
    /** The name looked up in the packed references. */
    function Ref(): string
      requires Symbolic?
    {
      target[..Until(target, '\n')]
    }
  }

  function ParseHead(content: string): Head {
    if |content| < |PREFIX| then Broken
    else if content[..|PREFIX|] == PREFIX then
      if |content| < |PREFIX| + 1 || |content| >= MAX_HEAD then Broken
      else Symbolic(TrimRight(TrimLeft(content[|PREFIX|..])))
    else if |content| < HASH_DIGITS then Broken
    else Detached(FromHexStr(content[..HASH_DIGITS]))
  }

  // ---------------------------------------------------------------- reading

  /** The moments at which one ReadHeadHash looks at its files; some may not be used. */
  datatype Moments = Moments(headStamp: nat, headRead: nat, refStamp: nat, refRead: nat, packStamp: nat, packRead: nat)
  {
    predicate Ordered() { headStamp <= headRead <= refStamp <= refRead <= packStamp <= packRead }
  }

  /** Everything at one moment. */
  function At(t: nat): Moments { Moments(t, t, t, t, t, t) }

  /** What is remembered of the packed references. */
  datatype Packed = Packed(file: Path, mtime: int, size: int, refs: map<string, Hash>)

  const NothingPacked := Packed("", 0, -1, map[])

  /** GetPackRef; None stands for its error return. */
  function GetPackRef(fs: History, d: Dirs, m: Moments, before: Packed): Option<Packed> {
    var f, g := fs(m.packStamp, d.PackedPath()), fs(m.packRead, d.PackedPath());
    if f.Absent? then Some(before.(file := "", refs := map[]))
    else if f.mtime == before.mtime && f.Size() == before.size then Some(before)
    else if !g.Present? || |g.content| >= INT_MAX then None
    else Some(Packed(d.PackedPath(), f.mtime, f.Size(), Parse(g.content, map[])))
  }

  /** What is remembered of a successful ReadHeadHash. */
  datatype Memo = Memo(
    headFile: Path, headMtime: int, headSize: int,
    refFile: Path, refMtime: int, packed: Packed, fromPacked: bool, head: Hash)

  /** The branch has no file of its own, or none that can be opened. */
  function ReadPacked(fs: History, d: Dirs, m: Moments, memo: Memo, ref: string, mayBeUnborn: bool): Option<Memo> {
    match GetPackRef(fs, d, m, memo.packed)
    case None => None
    case Some(packed) =>
      if ref in packed.refs then Some(memo.(packed := packed, fromPacked := true, head := packed.refs[ref]))
      else if mayBeUnborn then Some(memo.(packed := packed, head := EmptyHash()))
      else None
  }

  function ReadRef(fs: History, d: Dirs, m: Moments, memo: Memo, target: Head): Option<Memo>
    requires target.Symbolic?
  {
    var path := d.RefPath(target.target);
    var f, g := fs(m.refStamp, path), fs(m.refRead, path);
    var memo1 := memo.(refFile := path);
    if f.Absent? then ReadPacked(fs, d, m, memo1, target.Ref(), true)
    else if !g.Present? then ReadPacked(fs, d, m, memo1, target.Ref(), false)
    else if |g.content| < HASH_DIGITS then None
    else Some(memo1.(refMtime := f.mtime, head := FromHexStr(g.content[..HASH_DIGITS])))
  }

  /** ReadHeadHash on a new object; None stands for its error return. */
  function ReadHead(fs: History, d: Dirs, m: Moments): Option<Memo> {
    var f, g := fs(m.headStamp, d.HeadPath()), fs(m.headRead, d.HeadPath());
    if f.Absent? || !g.Present? then None
    else
      var memo := Memo(d.HeadPath(), f.mtime, f.Size(), "", 0, NothingPacked, false, EmptyHash());
      match ParseHead(g.content)
      case Broken => None
      case Detached(hash) => Some(memo.(head := hash))
      case Symbolic(target) => ReadRef(fs, d, m, memo, Symbolic(target))
  }

  // ---------------------------------------------------------------- what is written is what is read

  ghost predicate IsBlank(s: string) {
    forall i :: 0 <= i < |s| ==> s[i] in " \t\n\r" || s[i] == 11 as char || s[i] == 12 as char
  }

  /** A HEAD file that begins with forty digits is the commit that they are. */
  lemma DetachedIsAsWritten(fs: History, d: Dirs, m: Moments)
    requires !fs(m.headStamp, d.worktree + "HEAD").Absent? && fs(m.headRead, d.worktree + "HEAD").Present?
    requires var text := fs(m.headRead, d.worktree + "HEAD").content; |text| >= 40 && IsHex(text[0])
    ensures ReadHead(fs, d, m).Some?
    ensures var memo := ReadHead(fs, d, m).value;
            memo.refFile == "" && !memo.fromPacked && IsWritten(memo.head, fs(m.headRead, d.worktree + "HEAD").content[..40])
  {
    var text := fs(m.headRead, d.worktree + "HEAD").content;
    assert text[..4][0] == text[0] != 'r';
    TextIsWritten(text[..40]);
  }

  /** Nothing can be read from a HEAD file that is too short for what it begins with, or that names
      a branch and is as large as a hundred megabytes. */
  lemma NothingIsRead(fs: History, d: Dirs, m: Moments)
    requires fs(m.headRead, d.worktree + "HEAD").Present?
    requires var text := fs(m.headRead, d.worktree + "HEAD").content;
             if "ref:" <= text then |text| == 4 || |text| >= 100 * 1024 * 1024 else |text| < 40
    ensures ReadHead(fs, d, m).None?
  {
  }

  lemma {:induction false} TrimmedLeft(blank: string, s: string)
    requires IsBlank(blank) && |s| > 0 && !IsBlank([s[0]])
    ensures TrimLeft(blank + s) == s
  {
    if |blank| > 0 {
      assert (blank + s)[1..] == blank[1..] + s && (blank + s)[0] == blank[0];
      TrimmedLeft(blank[1..], s);
    } else {
      assert blank + s == s && [s[0]][0] == s[0];
    }
  }

  lemma {:induction false} TrimmedRight(s: string, blank: string)
    requires IsBlank(blank) && |s| > 0 && !IsBlank([s[|s| - 1]])
    ensures TrimRight(s + blank) == s
  {
    var n := |blank| - 1;
    if |blank| > 0 {
      assert (s + blank)[..|s| + n] == s + blank[..n] && (s + blank)[|s| + n] == blank[n];
      TrimmedRight(s, blank[..n]);
    } else {
      assert s + blank == s && [s[|s| - 1]][0] == s[|s| - 1];
    }
  }

  /** A HEAD file that names a branch, as git writes it, with any white space around the name. */
  ghost predicate NamesBranch(text: string, before: string, name: string, after: string) {
    && text == "ref:" + (before + (name + after)) && |text| < 100 * 1024 * 1024
    && IsBlank(before) && IsBlank(after) && '\n' !in name
    && |name| > 0 && !IsBlank([name[0]]) && !IsBlank([name[|name| - 1]])
  }

  lemma BranchIsRead(text: string, before: string, name: string, after: string)
    requires NamesBranch(text, before, name, after)
    ensures ParseHead(text) == Symbolic(name) && Symbolic(name).Ref() == name
  {
    assert text[..4] == "ref:" && text[4..] == before + (name + after);
    assert (name + after)[0] == name[0];
    TrimmedLeft(before, name + after);
    TrimmedRight(name, after);
  }

  /** The path of a branch's own file, with the separators of the file system. */
  ghost predicate IsRefFile(path: Path, d: Dirs, name: string) {
    var plain := d.admin + name;
    |path| == |plain| && forall i :: 0 <= i < |plain| ==> path[i] == if plain[i] == '/' then '\\' else plain[i]
  }

  /** A HEAD file that names a branch is the commit in the branch's own file; without such a file
      the one listed for it in the packed references, and if none is, no commit yet. */
  lemma BranchIsAsWritten(fs: History, d: Dirs, m: Moments, before: string, name: string, after: string, path: Path)
    requires !fs(m.headStamp, d.worktree + "HEAD").Absent? && fs(m.headRead, d.worktree + "HEAD").Present?
    requires NamesBranch(fs(m.headRead, d.worktree + "HEAD").content, before, name, after) && IsRefFile(path, d, name)
    ensures ReadHead(fs, d, m).Some? ==> ReadHead(fs, d, m).value.refFile == path
    ensures var f, g := fs(m.refStamp, path), fs(m.refRead, path);
            var packed := GetPackRef(fs, d, m, NothingPacked);
            && (!f.Absent? && g.Present? ==> (ReadHead(fs, d, m).Some? <==> |g.content| >= 40))
            && (!f.Absent? && g.Present? && |g.content| >= 40 ==>
                  var memo := ReadHead(fs, d, m).value;
                  !memo.fromPacked && memo.refMtime == f.mtime && IsWritten(memo.head, g.content[..40]))
            && (f.Absent? ==> (ReadHead(fs, d, m).Some? <==> packed.Some?))
            && (!f.Absent? && !g.Present? ==> (ReadHead(fs, d, m).Some? <==> packed.Some? && name in packed.value.refs))
            && ((f.Absent? || !g.Present?) && ReadHead(fs, d, m).Some? ==>
                  var memo := ReadHead(fs, d, m).value;
                  && (memo.fromPacked <==> name in packed.value.refs)
                  && (name in packed.value.refs ==> memo.head == packed.value.refs[name])
                  && (name !in packed.value.refs ==> |memo.head| == 40 && forall i :: 0 <= i < 40 ==> memo.head[i] == 0))
  {
    BranchIsRead(fs(m.headRead, d.worktree + "HEAD").content, before, name, after);
    assert d.RefPath(name) == path;
    hide ParseHead, Dirs.RefPath, GetPackRef;
    if fs(m.refRead, path).Present? && |fs(m.refRead, path).content| >= 40 {
      TextIsWritten(fs(m.refRead, path).content[..40]);
    }
  }

  /** The packed references are those that the lines of the file give, the last one of a name. */
  lemma PackedIsAsWritten(fs: History, d: Dirs, m: Moments, entries: seq<Entry>, k: nat)
    requires fs(m.packStamp, d.admin + "packed-refs").Present? && fs(m.packRead, d.admin + "packed-refs").Present?
    requires fs(m.packRead, d.admin + "packed-refs").content == Print(entries) && |Print(entries)| < INT_MAX
    requires forall i :: 0 <= i < |entries| ==> entries[i].WellFormed()
    requires k < |entries| && forall i :: k < i < |entries| ==> entries[i].ref != entries[k].ref
    ensures GetPackRef(fs, d, m, NothingPacked).Some?
    ensures var refs := GetPackRef(fs, d, m, NothingPacked).value.refs;
            && entries[k].ref in refs && IsWritten(refs[entries[k].ref], entries[k].hash)
            && forall name :: name in refs ==> exists i :: 0 <= i < |entries| && entries[i].ref == name
  {
    hide Parse, Print, IsWritten;
    LinesAreListed(entries, map[], k);
  }

  // ---------------------------------------------------------------- checking

  /** CheckHeadUpdate: whether the memo may be out of date, looking at HEAD, at the branch and
      at the packed references at three moments. */
  function CheckHeadUpdate(fs: History, memo: Memo, t1: nat, t2: nat, t3: nat): bool {
    var f, r, p := fs(t1, memo.headFile), fs(t2, memo.refFile), fs(t3, memo.packed.file);
    || memo.headFile == ""
    || f.Absent?
    || f.mtime != memo.headMtime || f.Size() != memo.headSize
    || (memo.refFile != "" && if r.Absent? then !memo.fromPacked else r.mtime != memo.refMtime)
    || (memo.fromPacked && memo.packed.file != "" &&
        (p.Absent? || p.mtime != memo.packed.mtime || p.Size() != memo.packed.size))
    || (memo.head == EmptyHash() && memo.refFile == "" && memo.packed.file == "")
  }

  /** The stamps taken of a file tell its versions apart, and none is the initial value. */
  ghost predicate Stamped(fs: History, path: Path, bySize: bool) {
    && (forall t: nat :: !fs(t, path).Absent? ==> fs(t, path).mtime != 0)
    && (forall s: nat, t: nat ::
          s <= t && SameStamp(fs(s, path), fs(t, path), bySize) ==> Unchanged(fs, path, s, t))
  }

  predicate SameStamp(f: File, g: File, bySize: bool) {
    !f.Absent? && !g.Absent? && f.mtime == g.mtime && (bySize ==> f.Size() == g.Size())
  }

  ghost predicate Unchanged(fs: History, path: Path, s: nat, t: nat) {
    forall u: nat :: s <= u <= t ==> fs(u, path) == fs(s, path)
  }

  /** HEAD and the packed references are stamped with time and size, branches with time only. */
  ghost predicate Honest(fs: History, d: Dirs) {
    && Stamped(fs, d.HeadPath(), true) && Stamped(fs, d.PackedPath(), true)
    && forall ref :: Stamped(fs, d.RefPath(ref), false)
  }

  /** The moments at which a check looks at the files, as those of a reading. */
  function Looks(t1: nat, t2: nat, t3: nat): Moments { Moments(t1, t1, t2, t2, t3, t3) }

  /** The memo is fresh: if CheckHeadUpdate answers no, a new reading whose looks fall where
      those of the check fell yields the same memo, hence the same head. Any file may change at
      any moment, also while it is read and while it is checked. */
  lemma CacheIsFresh(fs: History, d: Dirs, m: Moments, memo: Memo, t1: nat, t2: nat, t3: nat)
    requires Honest(fs, d) && |d.admin| > 0
    requires m.Ordered() && ReadHead(fs, d, m) == Some(memo)
    requires m.packRead <= t1 <= t2 <= t3 && !CheckHeadUpdate(fs, memo, t1, t2, t3)
    ensures ReadHead(fs, d, Looks(t1, t2, t3)) == Some(memo)
  {
    var f := fs(m.headStamp, d.HeadPath());
    assert Unchanged(fs, d.HeadPath(), m.headStamp, t1);
    var head := ParseHead(f.content);
    if head.Symbolic? {
      RefIsFresh(fs, d, m, memo.(packed := NothingPacked, fromPacked := false, head := EmptyHash(), refFile := "", refMtime := 0), head, memo, t1, t2, t3);
    }
  }

  /** It is what the files say at one moment if and only if HEAD is not switched between the
      first two looks. */
  lemma FreshAtOnce(fs: History, d: Dirs, m: Moments, memo: Memo, t1: nat, t2: nat, t3: nat)
    requires Honest(fs, d) && |d.admin| > 0
    requires m.Ordered() && ReadHead(fs, d, m) == Some(memo)
    requires m.packRead <= t1 <= t2 <= t3 && !CheckHeadUpdate(fs, memo, t1, t2, t3)
    ensures ReadHead(fs, d, At(t2)) == Some(memo) <==> fs(t2, d.HeadPath()) == fs(t1, d.HeadPath())
  {
    if fs(t2, d.HeadPath()) == fs(t1, d.HeadPath()) {
      FreshUnlessSwitched(fs, d, m, memo, t1, t2, t3);
    } else {
      SeenIsStamped(fs, d, m, memo);
      SeenIsStamped(fs, d, At(t2), memo);
      hide ReadHead, Unchanged;
      assert Stamped(fs, d.HeadPath(), true);
      if ReadHead(fs, d, At(t2)) == Some(memo) {
        assert SameStamp(fs(t1, d.HeadPath()), fs(t2, d.HeadPath()), true);
        StaysBetween(fs, d.HeadPath(), t1, t2);
        assert false;
      }
    }
  }

  /** The memo holds the stamp of HEAD that was looked at first. */
  lemma SeenIsStamped(fs: History, d: Dirs, m: Moments, memo: Memo)
    ensures ReadHead(fs, d, m) == Some(memo) ==>
              var f := fs(m.headStamp, d.HeadPath());
              memo.headFile == d.HeadPath() && !f.Absent? && f.mtime == memo.headMtime && f.Size() == memo.headSize
  {
  }

  lemma StaysBetween(fs: History, path: Path, s: nat, t: nat)
    requires Stamped(fs, path, true) && s <= t && SameStamp(fs(s, path), fs(t, path), true)
    ensures fs(t, path) == fs(s, path)
  {
    assert Unchanged(fs, path, s, t);
  }

  lemma FreshUnlessSwitched(fs: History, d: Dirs, m: Moments, memo: Memo, t1: nat, t2: nat, t3: nat)
    requires Honest(fs, d) && |d.admin| > 0
    requires m.Ordered() && ReadHead(fs, d, m) == Some(memo)
    requires m.packRead <= t1 <= t2 <= t3 && !CheckHeadUpdate(fs, memo, t1, t2, t3)
    requires fs(t2, d.HeadPath()) == fs(t1, d.HeadPath())
    ensures ReadHead(fs, d, At(t2)) == Some(memo)
  {
    CacheIsFresh(fs, d, m, memo, t1, t2, t3);
    PackedStays(fs, d, m, memo, t1, t2, t3);
    hide ReadHead, Honest;
    SameReading(fs, d, Looks(t1, t2, t3), At(t2), memo);
  }

  lemma PackedStays(fs: History, d: Dirs, m: Moments, memo: Memo, t1: nat, t2: nat, t3: nat)
    requires Stamped(fs, d.PackedPath(), true) && |d.admin| > 0
    requires m.Ordered() && ReadHead(fs, d, m) == Some(memo)
    requires m.packRead <= t1 <= t2 <= t3 && !CheckHeadUpdate(fs, memo, t1, t2, t3)
    ensures memo.fromPacked ==> fs(t3, d.PackedPath()) == fs(t2, d.PackedPath())
  {
    if memo.fromPacked {
      assert Unchanged(fs, d.PackedPath(), m.packStamp, t3);
    }
  }

  lemma SamePacked(fs: History, d: Dirs, m: Moments, n: Moments, memo: Memo, ref: string, mayBeUnborn: bool)
    requires fs(m.packStamp, d.PackedPath()) == fs(n.packStamp, d.PackedPath())
    requires fs(m.packRead, d.PackedPath()) == fs(n.packRead, d.PackedPath())
    ensures ReadPacked(fs, d, m, memo, ref, mayBeUnborn) == ReadPacked(fs, d, n, memo, ref, mayBeUnborn)
  {
  }

  lemma SameRef(fs: History, d: Dirs, m: Moments, n: Moments, start: Memo, target: Head, memo: Memo)
    requires target.Symbolic? && m.refStamp == n.refStamp && m.refRead == n.refRead
    requires memo.fromPacked || fs(m.refStamp, d.RefPath(target.target)).Absent? ==>
               && fs(m.packStamp, d.PackedPath()) == fs(n.packStamp, d.PackedPath())
               && fs(m.packRead, d.PackedPath()) == fs(n.packRead, d.PackedPath())
    requires ReadRef(fs, d, m, start, target) == Some(memo)
    ensures ReadRef(fs, d, n, start, target) == Some(memo)
  {
    var path := d.RefPath(target.target);
    var start1 := start.(refFile := path);
    if !fs(m.refStamp, path).Absent? && !fs(m.refRead, path).Present? {
      FoundInPacked(fs, d, m, start1, target.Ref());
      SamePacked(fs, d, m, n, start1, target.Ref(), false);
    } else if fs(m.refStamp, path).Absent? {
      SamePacked(fs, d, m, n, start1, target.Ref(), true);
    }
  }

  lemma FoundInPacked(fs: History, d: Dirs, m: Moments, memo: Memo, ref: string)
    ensures var r := ReadPacked(fs, d, m, memo, ref, false); r.Some? ==> r.value.fromPacked
  {
  }

  lemma RefIsNamed(fs: History, d: Dirs, m: Moments, start: Memo, target: Head)
    requires target.Symbolic?
    ensures var r := ReadRef(fs, d, m, start, target); r.Some? ==> r.value.refFile == d.RefPath(target.target)
  {
  }

  /** Two readings agree if their looks do, as far as they matter. */
  lemma SameReading(fs: History, d: Dirs, m: Moments, n: Moments, memo: Memo)
    requires fs(m.headStamp, d.HeadPath()) == fs(n.headStamp, d.HeadPath())
    requires fs(m.headRead, d.HeadPath()) == fs(n.headRead, d.HeadPath())
    requires m.refStamp == n.refStamp && m.refRead == n.refRead
    requires memo.fromPacked || (memo.refFile != "" && fs(m.refStamp, memo.refFile).Absent?) ==>
               && fs(m.packStamp, d.PackedPath()) == fs(n.packStamp, d.PackedPath())
               && fs(m.packRead, d.PackedPath()) == fs(n.packRead, d.PackedPath())
    requires ReadHead(fs, d, m) == Some(memo) && |d.admin| > 0
    ensures ReadHead(fs, d, n) == Some(memo)
  {
    hide ReadRef, ParseHead;
    var f := fs(m.headStamp, d.HeadPath());
    var head := ParseHead(fs(m.headRead, d.HeadPath()).content);
    if head.Symbolic? {
      var start := Memo(d.HeadPath(), f.mtime, f.Size(), "", 0, NothingPacked, false, EmptyHash());
      RefIsNamed(fs, d, m, start, head);
      SameRef(fs, d, m, n, start, head, memo);
    }
  }

  lemma RefIsFresh(fs: History, d: Dirs, m: Moments, start: Memo, target: Head, memo: Memo, t1: nat, t2: nat, t3: nat)
    requires Stamped(fs, d.PackedPath(), true) && target.Symbolic? && Stamped(fs, d.RefPath(target.target), false)
    requires |d.admin| > 0 && m.Ordered() && m.packRead <= t2 <= t3
    requires start.packed == NothingPacked && start.refMtime == 0 && !start.fromPacked
    requires ReadRef(fs, d, m, start, target) == Some(memo)
    requires var r := fs(t2, memo.refFile); if r.Absent? then memo.fromPacked else r.mtime == memo.refMtime
    requires memo.fromPacked && memo.packed.file != "" ==>
               var p := fs(t3, memo.packed.file);
               !p.Absent? && p.mtime == memo.packed.mtime && p.Size() == memo.packed.size
    ensures ReadRef(fs, d, Looks(t1, t2, t3), start, target) == Some(memo)
  {
    var path := d.RefPath(target.target);
    if memo.fromPacked {
      assert memo.refMtime == 0;
      assert fs(t2, path).Absent?;
      assert Unchanged(fs, d.PackedPath(), m.packStamp, t3);
    } else {
      assert Unchanged(fs, path, m.refStamp, t2);
    }
  }

  /** References that are kept because the stamp is the one seen last are those that a new reading
      would give. */
  lemma KeptIsFresh(fs: History, d: Dirs, m: Moments, n: Moments, before: Packed)
    requires Stamped(fs, d.PackedPath(), true) && m.packStamp <= m.packRead <= n.packStamp <= n.packRead
    requires GetPackRef(fs, d, m, NothingPacked) == Some(before)
    requires !fs(m.packStamp, d.PackedPath()).Absent? && SameStamp(fs(m.packStamp, d.PackedPath()), fs(n.packStamp, d.PackedPath()), true)
    requires fs(n.packRead, d.PackedPath()) == fs(n.packStamp, d.PackedPath())
    ensures GetPackRef(fs, d, n, before) == Some(before) == GetPackRef(fs, d, n, NothingPacked)
  {
    assert Unchanged(fs, d.PackedPath(), m.packStamp, n.packStamp);
  }

  /** And whenever another version is there, it is read. */
  lemma OtherIsRead(fs: History, d: Dirs, m: Moments, n: Moments, before: Packed)
    requires GetPackRef(fs, d, m, NothingPacked) == Some(before)
    requires !SameStamp(fs(m.packStamp, d.PackedPath()), fs(n.packStamp, d.PackedPath()), true)
    requires Stamped(fs, d.PackedPath(), true)
    ensures GetPackRef(fs, d, n, before).Some? <==> GetPackRef(fs, d, n, NothingPacked).Some?
    ensures GetPackRef(fs, d, n, before).Some? ==>
              GetPackRef(fs, d, n, before).value.refs == GetPackRef(fs, d, n, NothingPacked).value.refs
  {
  }

  /** What has to be as it was for CheckHeadUpdate to answer no. A branch that was found neither
      as a file nor among the packed references is looked up again every time. */
  ghost predicate AsItWas(fs: History, d: Dirs, m: Moments, memo: Memo, t1: nat, t2: nat, t3: nat) {
    && fs(t1, d.HeadPath()) == fs(m.headStamp, d.HeadPath())
    && (if memo.refFile == "" then memo.head != EmptyHash()
        else if memo.fromPacked then
          fs(t2, memo.refFile).Absent? && fs(t3, d.PackedPath()) == fs(m.packStamp, d.PackedPath())
        else memo.refMtime != 0 && fs(t2, memo.refFile) == fs(m.refStamp, memo.refFile))
  }

  lemma CheckIsExact(fs: History, d: Dirs, m: Moments, memo: Memo, t1: nat, t2: nat, t3: nat)
    requires Honest(fs, d) && |d.admin| > 0
    requires m.Ordered() && ReadHead(fs, d, m) == Some(memo)
    requires m.packRead <= t1 <= t2 <= t3
    ensures !CheckHeadUpdate(fs, memo, t1, t2, t3) <==> AsItWas(fs, d, m, memo, t1, t2, t3)
  {
    var head := ParseHead(fs(m.headRead, d.HeadPath()).content);
    if head.Symbolic? {
      assert Stamped(fs, d.RefPath(head.target), false);
    }
    if !CheckHeadUpdate(fs, memo, t1, t2, t3) {
      assert Unchanged(fs, d.HeadPath(), m.headStamp, t1);
      if memo.refFile != "" {
        if memo.fromPacked {
          assert Unchanged(fs, d.PackedPath(), m.packStamp, t3);
        } else {
          assert Unchanged(fs, memo.refFile, m.refStamp, t2);
        }
      }
    }
  }

  /** An unborn branch is never taken from the cache. */
  lemma UnbornIsRechecked(fs: History, d: Dirs, m: Moments, memo: Memo, t1: nat, t2: nat, t3: nat)
    requires Honest(fs, d) && |d.admin| > 0
    requires m.Ordered() && ReadHead(fs, d, m) == Some(memo)
    requires memo.refFile != "" && !memo.fromPacked && fs(m.refStamp, memo.refFile).Absent?
    requires m.packRead <= t1 <= t2 <= t3
    ensures CheckHeadUpdate(fs, memo, t1, t2, t3)
  {
    CheckIsExact(fs, d, m, memo, t1, t2, t3);
  }

  // ---------------------------------------------------------------- the objects

  class HeadFileList {
    const dirs: Dirs
    var headFile: Path
    var lastModifyTimeHead: int
    var lastFileSizeHead: int
    var headRefFile: Path
    var lastModifyTimeRef: int
    var packRefFile: Path
    var lastModifyTimePackRef: int
    var lastFileSizePackRef: int
    var packRefMap: map<string, Hash>
    var refFromPackRefFile: bool
    var head: Hash

    function PackedView(): Packed
      reads this
    {
      Packed(packRefFile, lastModifyTimePackRef, lastFileSizePackRef, packRefMap)
    }

    function View(): Memo
      reads this
    {
      Memo(headFile, lastModifyTimeHead, lastFileSizeHead, headRefFile, lastModifyTimeRef,
           PackedView(), refFromPackRefFile, head)
    }

    constructor (dirs: Dirs)
      ensures this.dirs == dirs && View() == Memo("", 0, -1, "", 0, NothingPacked, false, EmptyHash())
    {
      this.dirs := dirs;
      headFile, lastModifyTimeHead, lastFileSizeHead := "", 0, -1;
      headRefFile, lastModifyTimeRef := "", 0;
      packRefFile, lastModifyTimePackRef, lastFileSizePackRef, packRefMap := "", 0, -1, map[];
      refFromPackRefFile, head := false, EmptyHash();
    }

    /** Reads the packed references unless their stamp is the one seen last. */
    method ReadPackRef(fs: History, m: Moments) returns (error: bool)
      modifies this`packRefFile, this`lastModifyTimePackRef, this`lastFileSizePackRef, this`packRefMap
      ensures error <==> GetPackRef(fs, dirs, m, old(PackedView())).None?
      ensures !error ==> GetPackRef(fs, dirs, m, old(PackedView())) == Some(PackedView())
    {
      var stamp := fs(m.packStamp, dirs.PackedPath());
      if stamp.Absent? {
        packRefFile := "";
        packRefMap := map[];
        return false;
      } else if stamp.mtime == lastModifyTimePackRef && stamp.Size() == lastFileSizePackRef {
        return false;
      }
      packRefFile := dirs.PackedPath();
      lastModifyTimePackRef := stamp.mtime;
      lastFileSizePackRef := stamp.Size();
      packRefMap := map[];
      var file := fs(m.packRead, dirs.PackedPath());
      if !file.Present? || |file.content| >= INT_MAX {
        return true;
      }
      packRefMap := ReadRefs(file.content);
      error := false;
    }

    /** Looks the branch up among the packed references. */
    method ReadFromPacked(fs: History, m: Moments, ref: string, mayBeUnborn: bool) returns (error: bool)
      modifies this`packRefFile, this`lastModifyTimePackRef, this`lastFileSizePackRef, this`packRefMap,
               this`refFromPackRefFile, this`head
      ensures error <==> ReadPacked(fs, dirs, m, old(View()), ref, mayBeUnborn).None?
      ensures !error ==> ReadPacked(fs, dirs, m, old(View()), ref, mayBeUnborn) == Some(View())
    {
      error := ReadPackRef(fs, m);
      if error {
        return;
      }
      if ref in packRefMap {
        refFromPackRefFile := true;
        head := packRefMap[ref];
      } else if mayBeUnborn {
        head := EmptyHash();
      } else {
        error := true;
      }
    }

    /** Stamps are taken before the content they stand for is read. */
    method ReadHeadHash(fs: History, m: Moments) returns (error: bool)
      requires View() == Memo("", 0, -1, "", 0, NothingPacked, false, EmptyHash())
      modifies this
      ensures error <==> ReadHead(fs, dirs, m).None?
      ensures !error ==> ReadHead(fs, dirs, m) == Some(View())
    {
      hide GetPackRef, ReadPacked, ParseHead, Backslashes;
      headFile := dirs.HeadPath();
      var stamp := fs(m.headStamp, headFile);
      if stamp.Absent? {
        return true;
      }
      lastModifyTimeHead := stamp.mtime;
      lastFileSizeHead := stamp.Size();
      var file := fs(m.headRead, headFile);
      if !file.Present? {
        return true;
      }
      match ParseHead(file.content)
      case Broken =>
        error := true;
      case Detached(hash) =>
        headRefFile := "";
        head := hash;
        error := false;
      case Symbolic(target) =>
        headRefFile := dirs.RefPath(target);
        var refStamp := fs(m.refStamp, headRefFile);
        if refStamp.Absent? {
          error := ReadFromPacked(fs, m, Symbolic(target).Ref(), true);
          return;
        }
        var ref := fs(m.refRead, headRefFile);
        if !ref.Present? {
          error := ReadFromPacked(fs, m, Symbolic(target).Ref(), false);
          return;
        }
        if |ref.content| < HASH_DIGITS {
          return true;
        }
        head := FromHexStr(ref.content[..HASH_DIGITS]);
        lastModifyTimeRef := refStamp.mtime;
        error := false;
    }
  }

  /** The cache over all repositories; its entries are never changed once they are stored. */
  class HeadFileMap {
    var lists: map<Dirs, Memo>
    ghost var readAt: map<Dirs, Moments>

    /** Every entry is what a successful ReadHeadHash before `now` has read. */
    ghost predicate Valid(fs: History, now: nat)
      reads this
    {
      lists.Keys == readAt.Keys && forall d :: d in lists ==> ReadBefore(fs, d, readAt[d], lists[d], now)
    }

    constructor (fs: History)
      ensures Valid(fs, 0) && lists == map[]
    {
      lists, readAt := map[], map[];
    }

    /** Returns the cached head while it is up to date and else reads it anew; `treeRead` tells
        whether reading the tree of the new head succeeds. */
    method CheckHeadAndUpdate(fs: History, d: Dirs, now: nat, t1: nat, t2: nat, t3: nat, m: Moments, treeRead: bool)
      returns (memo: Option<Memo>, cached: bool)
      requires Valid(fs, now) && Honest(fs, d) && |d.admin| > 0
      requires now <= t1 <= t2 <= t3 <= m.headStamp && m.Ordered()
      modifies this
      ensures Valid(fs, m.packRead)
      ensures memo.Some? ==> memo == ReadHead(fs, d, if cached then Looks(t1, t2, t3) else m)
      ensures cached <==> d in old(lists) && AsItWas(fs, d, old(readAt)[d], old(lists)[d], t1, t2, t3)
      ensures memo.None? <==> !cached && (ReadHead(fs, d, m).None? || !treeRead)
      ensures lists == if memo.Some? then old(lists)[d := memo.value] else old(lists) - {d}
    {
      hide ReadHead, CheckHeadUpdate, AsItWas, Honest;
      if d in lists {
        CheckIsExact(fs, d, readAt[d], lists[d], t1, t2, t3);
        if !CheckHeadUpdate(fs, lists[d], t1, t2, t3) {
          CacheIsFresh(fs, d, readAt[d], lists[d], t1, t2, t3);
          return Some(lists[d]), true;
        }
      }
      cached := false;
      var list := new HeadFileList(d);
      var error := list.ReadHeadHash(fs, m);
      if error || !treeRead {
        lists, readAt := lists - {d}, readAt - {d};
        return None, false;
      }
      lists, readAt := lists[d := list.View()], readAt[d := m];
      memo := Some(list.View());
    }
  }

  ghost predicate ReadBefore(fs: History, d: Dirs, m: Moments, memo: Memo, now: nat) {
    |d.admin| > 0 && m.Ordered() && m.packRead <= now && ReadHead(fs, d, m) == Some(memo)
  }

  // ---------------------------------------------------------------- HEAD switched while checking

  function Digits(c: char): string { seq(HASH_DIGITS, i => c) }

  /** HEAD names branch `a` before moment 2 and branch `b` from then on; `a` is among the packed
      references all the time, and has a file of its own at moment 1 only. */
  function Switching(): History {
    (t: nat, p: Path) =>
      if p == "w/HEAD" then if t < 2 then Present(1, "ref: a") else Present(2, "ref: b")
      else if p == "g/packed-refs" then Present(1, PackedText())
      else if p == Backslashes("g/a") && t == 1 then Present(1, Digits('2'))
      else Absent
  }

  lemma ParseHeads()
    ensures ParseHead("ref: a") == Symbolic("a") && Symbolic("a").Ref() == "a"
    ensures ParseHead("ref: b") == Symbolic("b") && Symbolic("b").Ref() == "b"
  {
    assert "ref: a"[..4] == PREFIX && "ref: a"[4..] == " a" && " a"[1..] == "a" && TrimLeft("a") == "a" && TrimRight("a") == "a";
    assert "ref: b"[..4] == PREFIX && "ref: b"[4..] == " b" && " b"[1..] == "b" && TrimLeft("b") == "b" && TrimRight("b") == "b";
    assert "a"[1..] == "" && Until("a", '\n') == 1 && "a"[..1] == "a";
    assert "b"[1..] == "" && Until("b", '\n') == 1 && "b"[..1] == "b";
  }

  function PackedText(): string { Print([Entry([], Digits('1'), "a")]) }

  lemma PackedA()
    ensures |PackedText()| < INT_MAX
    ensures Parse(PackedText(), map[]) == map["a" := FromHexStr(Digits('1'))]
  {
    var e := Entry([], Digits('1'), "a");
    assert [e][1..] == [];
    assert Print([e]) == e.Text();
    ParseInvertsPrint([e], map[]);
    assert Listed([e], map[]) == Listed([], map["a" := FromHexStr(Digits('1'))]);
  }

  /** The versions that the looks at moments 0 to 3 find. */
  lemma Versions(d: Dirs)
    requires d == Dirs("w/", "g/")
    ensures var fs := Switching();
            && fs(0, d.HeadPath()) == fs(1, d.HeadPath()) == Present(1, "ref: a") && fs(2, d.HeadPath()) == Present(2, "ref: b")
            && fs(0, d.PackedPath()) == fs(2, d.PackedPath()) == fs(3, d.PackedPath()) == Present(1, PackedText())
            && fs(0, d.RefPath("a")).Absent? && fs(2, d.RefPath("a")).Absent? && fs(2, d.RefPath("b")).Absent?
            && fs(1, d.RefPath("a")) == Present(1, Digits('2'))
    ensures d.RefPath("a") != "" && d.PackedPath() != "" && d.HeadPath() != ""
  {
    SwitchingIsHonest(d);
    assert |d.RefPath("a")| > 0;
  }

  lemma SwitchingIsHonest(d: Dirs)
    requires d == Dirs("w/", "g/")
    ensures Honest(Switching(), d)
    ensures d.HeadPath() == "w/HEAD" && d.PackedPath() == "g/packed-refs"
    ensures d.RefPath("a") == Backslashes("g/a")
    ensures d.RefPath("b") != d.RefPath("a")
    ensures forall ref :: d.RefPath(ref) != d.HeadPath() && d.RefPath(ref) != d.PackedPath()
  {
    assert d.HeadPath() == "w/HEAD" && d.PackedPath() == "g/packed-refs";
    forall ref ensures d.RefPath(ref) != d.HeadPath() && d.RefPath(ref) != d.PackedPath() {
      assert d.RefPath(ref)[1] == '\\';
      assert d.HeadPath()[1] == '/' && d.PackedPath()[1] == '/';
    }
    assert d.admin + "a" == "g/a" && d.admin + "b" == "g/b";
    assert Backslashes("g/a")[2] == 'a' && Backslashes("g/b")[2] == 'b';
  }

  function BeforeMemo(d: Dirs): Memo {
    Memo(d.HeadPath(), 1, |"ref: a"|, d.RefPath("a"), 0,
         Packed(d.PackedPath(), 1, |PackedText()|, map["a" := FromHexStr(Digits('1'))]),
         true, FromHexStr(Digits('1')))
  }

  /** Reading a branch without a file of its own, everything at one moment. */
  lemma ReadWithoutFile(fs: History, d: Dirs, t: nat, target: string, mtime: int, text: string)
    requires fs(t, d.HeadPath()).Present? && ParseHead(fs(t, d.HeadPath()).content) == Symbolic(target)
    requires fs(t, d.RefPath(target)).Absent?
    requires fs(t, d.PackedPath()) == Present(mtime, text) && |text| < INT_MAX
    ensures var refs, ref, f := Parse(text, map[]), Symbolic(target).Ref(), fs(t, d.HeadPath());
            ReadHead(fs, d, At(t)) == Some(Memo(d.HeadPath(), f.mtime, f.Size(), d.RefPath(target), 0,
              Packed(d.PackedPath(), mtime, |text|, refs), ref in refs, if ref in refs then refs[ref] else EmptyHash()))
  {
    hide ParseHead, Parse, EmptyHash, Dirs.HeadPath, Dirs.PackedPath, Dirs.RefPath, Head.Ref;
    assert GetPackRef(fs, d, At(t), NothingPacked) == Some(Packed(d.PackedPath(), mtime, |text|, Parse(text, map[])));
  }

  lemma BeforeSwitch(d: Dirs)
    requires d == Dirs("w/", "g/")
    ensures ReadHead(Switching(), d, At(0)) == Some(BeforeMemo(d))
  {
    Versions(d);
    ParseHeads();
    PackedA();
    hide Switching, ParseHead, ReadHead, Parse, PackedText, Digits, FromHexStr, Dirs.HeadPath, Dirs.PackedPath, Dirs.RefPath, Head.Ref;
    ReadWithoutFile(Switching(), d, 0, "a", 1, PackedText());
  }

  lemma NotNoticed(d: Dirs)
    requires d == Dirs("w/", "g/")
    ensures !CheckHeadUpdate(Switching(), BeforeMemo(d), 1, 2, 3)
  {
    Versions(d);
    hide Switching, PackedText, Digits, FromHexStr, Dirs.HeadPath, Dirs.PackedPath, Dirs.RefPath;
  }

  lemma DuringSwitch(d: Dirs)
    requires d == Dirs("w/", "g/")
    ensures ReadHead(Switching(), d, At(1)).Some? && ReadHead(Switching(), d, At(1)).value.head == FromHexStr(Digits('2'))
  {
    Versions(d);
    ParseHeads();
    assert Digits('2')[..HASH_DIGITS] == Digits('2');
    hide Switching, ParseHead, Parse, PackedText, Dirs.HeadPath, Dirs.PackedPath, Dirs.RefPath, Head.Ref;
  }

  lemma AfterSwitch(d: Dirs)
    requires d == Dirs("w/", "g/")
    ensures ReadHead(Switching(), d, At(2)).Some? && ReadHead(Switching(), d, At(2)).value.head == EmptyHash()
  {
    Versions(d);
    ParseHeads();
    PackedA();
    assert "b" != "a";
    hide Switching, ParseHead, ReadHead, Parse, PackedText, Digits, FromHexStr, Dirs.HeadPath, Dirs.PackedPath, Dirs.RefPath, Head.Ref;
    ReadWithoutFile(Switching(), d, 2, "b", 1, PackedText());
  }

  /** If HEAD is switched between the first two looks, the cached head can be neither the one
      before nor the one after the switch. */
  lemma SwitchedWhileChecking() returns (fs: History, d: Dirs, memo: Memo)
    ensures Honest(fs, d) && |d.admin| > 0 && ReadHead(fs, d, At(0)) == Some(memo)
    ensures !CheckHeadUpdate(fs, memo, 1, 2, 3)
    ensures ReadHead(fs, d, At(1)).Some? && ReadHead(fs, d, At(1)).value.head != memo.head
    ensures ReadHead(fs, d, At(2)).Some? && ReadHead(fs, d, At(2)).value.head != memo.head
  {
    hide ReadHead, CheckHeadUpdate, Honest, Switching;
    fs, d := Switching(), Dirs("w/", "g/");
    SwitchingIsHonest(d);
    memo := BeforeMemo(d);
    BeforeSwitch(d);
    NotNoticed(d);
    DuringSwitch(d);
    AfterSwitch(d);
    assert FromHexStr(Digits('1'))[0] == 1 && FromHexStr(Digits('2'))[0] == 2 && EmptyHash()[0] == 0;
  }
}
