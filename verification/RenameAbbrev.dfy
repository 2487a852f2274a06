/** The short way to show a renamed path: common directories are given once. */
module RenameAbbrev {

  /** `p` characters are the longest common start that ends with a slash. */
  ghost predicate CommonPrefix(before: string, after: string, p: nat) {
    && SharedStart(before, after, p)
    && forall k: nat :: SharedStart(before, after, k) ==> k <= p
  }

  predicate SharedStart(before: string, after: string, k: nat) {
    && k <= |before| && k <= |after| && before[..k] == after[..k]
    && (k > 0 ==> before[k - 1] == '/')
  }

  /** The slash that ends the common start may begin the common end as well. */
  function Limit(p: nat): nat { if p > 0 then p - 1 else 0 }

  predicate SharedEnd(before: string, after: string, p: nat, k: nat) {
    && k + Limit(p) <= |before| && k + Limit(p) <= |after|
    && before[|before| - k..] == after[|after| - k..]
    && (k > 0 ==> before[|before| - k] == '/')
  }

  /** `s` characters are the longest common end that begins with a slash. */
  ghost predicate CommonSuffix(before: string, after: string, p: nat, s: nat) {
    && SharedEnd(before, after, p, s)
    && forall k: nat :: SharedEnd(before, after, p, k) ==> k <= s
  }

  /** What is shown between the common parts; nothing if they share their slash. */
  function Middle(path: string, p: nat, s: nat): string
    requires p <= |path| && s <= |path| + 1
  {
    if p + s > |path| then [] else path[p..|path| - s]
  }

  function Render(before: string, after: string, p: nat, s: nat): string
    requires p <= |before| && p <= |after| && s <= |before| && s <= |after|
  {
    var middle := Middle(before, p, s) + (" => " + Middle(after, p, s));
    if p + s > 0 then before[..p] + (['{'] + (middle + (['}'] + after[|after| - s..]))) else middle
  }

  function FileName(path: string): string {
    if |path| == 0 || path[|path| - 1] == '/' || path[|path| - 1] == '\\' then []
    else FileName(path[..|path| - 1]) + [path[|path| - 1]]
  }

  /** The file name is what follows the last slash, of either kind. */
  lemma {:induction false} FileNameIs(dir: string, name: string)
    requires '/' !in name && '\\' !in name
    requires dir == [] || dir[|dir| - 1] == '/' || dir[|dir| - 1] == '\\'
    ensures FileName(dir + name) == name
  {
    var n := |name| - 1;
    if |name| == 0 {
      assert dir + name == dir;
    } else {
      assert (dir + name)[..|dir| + n] == dir + name[..n] && (dir + name)[|dir| + n] == name[n];
      FileNameIs(dir, name[..n]);
    }
  }

  lemma StartAt(before: string, after: string, k: nat)
    requires SharedStart(before, after, k)
    ensures forall i :: 0 <= i < k ==> before[i] == after[i]
  {
    assert forall i :: 0 <= i < k ==> before[..k][i] == before[i] && after[..k][i] == after[i];
  }

  lemma EndAt(before: string, after: string, p: nat, k: nat, i: nat)
    requires SharedEnd(before, after, p, k)
    ensures 0 < i <= k ==> before[|before| - i] == after[|after| - i]
  {
    if 0 < i <= k {
      assert before[|before| - i] == before[|before| - k..][k - i];
    }
  }

  method PrefixLength(before: string, after: string) returns (p: nat)
    ensures CommonPrefix(before, after, p)
  {
    p := 0;
    var i := 0;
    var maxLength := if |before| < |after| then |before| else |after|;
    while i < maxLength
      invariant p <= i <= maxLength && before[..i] == after[..i]
      invariant SharedStart(before, after, p)
      invariant forall k: nat :: k <= i && SharedStart(before, after, k) ==> k <= p
    {
      if before[i] != after[i] {
        break;
      }
      assert before[..i + 1] == before[..i] + [before[i]] && after[..i + 1] == after[..i] + [after[i]];
      if before[i] == '/' {
        p := i + 1;
      }
      i := i + 1;
    }
    forall k: nat | SharedStart(before, after, k) ensures k <= p {
      StartAt(before, after, k);
    }
  }

  /** Walks back from both ends; each string ends with a terminator that is never a slash. */
  method SuffixLength(before: string, after: string, p: nat) returns (s: nat)
    requires p <= |before| && p <= |after|
    ensures CommonSuffix(before, after, p, s)
  {
    s := 0;
    var k := 0;
    while Limit(p) + k <= |before| && Limit(p) + k <= |after|
          && (k == 0 || before[|before| - k] == after[|after| - k])
      invariant k > 0 ==> k - 1 + Limit(p) <= |before| && k - 1 + Limit(p) <= |after|
      invariant k > 0 ==> before[|before| - (k - 1)..] == after[|after| - (k - 1)..]
      invariant SharedEnd(before, after, p, s)
      invariant forall j: nat :: j < k && SharedEnd(before, after, p, j) ==> j <= s
      decreases |before| + 1 - k
    {
      if k > 0 {
        assert before[|before| - k..] == [before[|before| - k]] + before[|before| - (k - 1)..];
        assert after[|after| - k..] == [after[|after| - k]] + after[|after| - (k - 1)..];
        if before[|before| - k] == '/' {
          s := k;
        }
      }
      k := k + 1;
    }
    forall j: nat | SharedEnd(before, after, p, j) ensures j <= s {
      EndAt(before, after, p, j, k);
    }
  }

  method GetAbbreviatedRename(before: string, after: string) returns (ret: string)
    ensures before == [] ==> ret == FileName(after)
    ensures before != [] ==> exists p: nat, s: nat ::
              CommonPrefix(before, after, p) && CommonSuffix(before, after, p, s) && ret == Render(before, after, p, s)
  {
    if |before| == 0 {
      return FileName(after);
    }
    var prefixLength := PrefixLength(before, after);
    var suffixLength := SuffixLength(before, after, prefixLength);
    var oldMidlen := |before| - prefixLength - suffixLength;
    var newMidlen := |after| - prefixLength - suffixLength;
    if oldMidlen < 0 {
      oldMidlen := 0;
    }
    if newMidlen < 0 {
      newMidlen := 0;
    }
    var oldMiddle, newMiddle := before[prefixLength..prefixLength + oldMidlen], after[prefixLength..prefixLength + newMidlen];
    assert oldMiddle == Middle(before, prefixLength, suffixLength);
    assert newMiddle == Middle(after, prefixLength, suffixLength);
    hide CommonPrefix, CommonSuffix, Middle, FileName;
    Assembled(before[..prefixLength], oldMiddle, newMiddle, after[|after| - suffixLength..]);
    ret := [];
    if prefixLength + suffixLength > 0 {
      ret := before[..prefixLength] + ['{'];
    }
    ret := ret + oldMiddle;
    ret := ret + " => ";
    ret := ret + newMiddle;
    if prefixLength + suffixLength > 0 {
      ret := ret + ['}'] + after[|after| - suffixLength..];
    }
  }

  lemma Assembled(prefix: string, before: string, after: string, suffix: string)
    ensures [] + before + " => " + after == before + (" => " + after)
    ensures prefix + ['{'] + before + " => " + after + ['}'] + suffix
         == prefix + (['{'] + ((before + (" => " + after)) + (['}'] + suffix)))
  {
  }

  // ---------------------------------------------------------------- nothing is lost

  /** Puts a shown path together; a slash at both ends of the join is one slash. */
  function Rebuild(prefix: string, middle: string, suffix: string): string {
    if prefix != [] && middle == [] && suffix != [] then prefix + suffix[1..] else prefix + middle + suffix
  }

  ghost predicate NoDoubleSlash(path: string) {
    forall i :: 0 <= i < |path| - 1 ==> path[i] != '/' || path[i + 1] != '/'
  }

  /** The middle parts are at worst one short of nothing; both are only if the paths are the
      same path with a slash in it. */
  lemma MiddleLengths(before: string, after: string, p: nat, s: nat)
    requires CommonPrefix(before, after, p) && CommonSuffix(before, after, p, s)
    ensures |before| - p - s >= -1 && |after| - p - s >= -1
    ensures |before| - p - s == -1 && |after| - p - s == -1 <==> before == after && '/' in before
  {
    if |before| - p - s == -1 && |after| - p - s == -1 {
      assert before == before[..p] + before[|before| - s..][1..];
      assert after == after[..p] + after[|after| - s..][1..];
    }
    if before == after && '/' in before {
      var i :| 0 <= i < |before| && before[i] == '/';
      assert SharedStart(before, after, i + 1);
      assert SharedEnd(before, after, p, |before| - Limit(p));
    }
  }

  /** Both paths can be told from the parts that are shown. */
  lemma PartsRebuild(before: string, after: string, p: nat, s: nat)
    requires CommonPrefix(before, after, p) && CommonSuffix(before, after, p, s)
    requires NoDoubleSlash(before) && NoDoubleSlash(after)
    ensures Rebuild(before[..p], Middle(before, p, s), after[|after| - s..]) == before
    ensures Rebuild(before[..p], Middle(after, p, s), after[|after| - s..]) == after
  {
    MiddleLengths(before, after, p, s);
    PartRebuilds(before, p, s);
    PartRebuilds(after, p, s);
  }

  lemma PartRebuilds(path: string, p: nat, s: nat)
    requires p <= |path| && s <= |path| && |path| - p - s >= -1 && NoDoubleSlash(path)
    requires p > 0 ==> path[p - 1] == '/'
    requires s > 0 ==> path[|path| - s] == '/'
    requires |path| - p - s == -1 ==> p > 0
    ensures Rebuild(path[..p], Middle(path, p, s), path[|path| - s..]) == path
  {
    var suffix := path[|path| - s..];
    if p + s > |path| {
      assert suffix[1..] == path[p..];
    } else if p > 0 && s > 0 && p + s == |path| {
      assert false;
    } else {
      assert path == path[..p] + path[p..|path| - s] + suffix;
    }
  }

  // ---------------------------------------------------------------- reading the text back

  function Find(s: string, c: char): (n: nat)
    ensures n <= |s|
  {
    if |s| == 0 || s[0] == c then 0 else 1 + Find(s[1..], c)
  }

  function From(s: string, n: nat): string { if n <= |s| then s[n..] else [] }

  /** Takes `x => y` apart. */
  function Sides(s: string): (string, string) {
    var n := Find(s, '>');
    (if 2 <= n then s[..n - 2] else [], From(s, n + 2))
  }

  /** The two paths that a text stands for. */
  function Expand(text: string): (string, string) {
    var b := Find(text, '{');
    if b == |text| then Sides(text)
    else
      var prefix, tail := text[..b], text[b + 1..];
      var e := Find(tail, '}');
      var (x, y) := Sides(tail[..e]);
      (Rebuild(prefix, x, From(tail, e + 1)), Rebuild(prefix, y, From(tail, e + 1)))
  }

  /** Free of the characters that the text itself uses. */
  predicate Plain(path: string) { '{' !in path && '}' !in path && '>' !in path }

  lemma {:induction false} FindIn(word: string, c: char, rest: string)
    requires c !in word
    ensures Find(word + ([c] + rest), c) == |word|
  {
    var s := word + ([c] + rest);
    if |word| > 0 {
      assert s[1..] == word[1..] + ([c] + rest);
      FindIn(word[1..], c, rest);
    }
  }

  lemma {:induction false} FindNone(s: string, c: char)
    requires c !in s
    ensures Find(s, c) == |s|
  {
    if |s| > 0 {
      FindNone(s[1..], c);
    }
  }

  lemma SidesOf(x: string, y: string)
    requires '>' !in x
    ensures Sides(x + (" => " + y)) == (x, y)
  {
    var s := x + (" => " + y);
    assert s == (x + " =") + (['>'] + ([' '] + y));
    FindIn(x + " =", '>', [' '] + y);
    assert s[..|x|] == x && s[|x| + 4..] == y;
  }

  lemma ExpandBraces(prefix: string, x: string, y: string, suffix: string)
    requires Plain(prefix) && Plain(x) && Plain(y)
    ensures Expand(prefix + (['{'] + ((x + (" => " + y)) + (['}'] + suffix))))
         == (Rebuild(prefix, x, suffix), Rebuild(prefix, y, suffix))
  {
    hide Find, Sides, Rebuild;
    var middle := x + (" => " + y);
    var tail := middle + (['}'] + suffix);
    var text := prefix + (['{'] + tail);
    SidesOf(x, y);
    FindIn(prefix, '{', tail);
    FindIn(middle, '}', suffix);
    assert text[..|prefix|] == prefix && text[|prefix| + 1..] == tail;
    assert tail[..|middle|] == middle && tail[|middle| + 1..] == suffix;
  }

  /** The text of a rename stands for exactly the two paths it was made from. */
  lemma TextExpands(before: string, after: string, p: nat, s: nat)
    requires CommonPrefix(before, after, p) && CommonSuffix(before, after, p, s)
    requires NoDoubleSlash(before) && NoDoubleSlash(after) && Plain(before) && Plain(after)
    ensures Expand(Render(before, after, p, s)) == (before, after)
  {
    PartsRebuild(before, after, p, s);
    PlainSlice(before, 0, p);
    PlainMiddle(before, p, s);
    PlainMiddle(after, p, s);
    assert Middle(before, 0, 0) == before && Middle(after, 0, 0) == after;
    hide Expand, Rebuild, NoDoubleSlash, Plain, Middle, CommonPrefix, CommonSuffix;
    if p + s > 0 {
      ExpandBraces(before[..p], Middle(before, p, s), Middle(after, p, s), after[|after| - s..]);
    } else {
      ExpandPlain(before, after);
    }
  }

  lemma PlainSlice(path: string, i: nat, j: nat)
    requires Plain(path) && i <= j <= |path|
    ensures Plain(path[i..j])
  {
    assert forall c :: c in path[i..j] ==> c in path;
  }

  lemma PlainMiddle(path: string, p: nat, s: nat)
    requires Plain(path) && p <= |path| && s <= |path| + 1
    ensures Plain(Middle(path, p, s))
  {
    if p + s <= |path| {
      PlainSlice(path, p, |path| - s);
    }
  }

  lemma ExpandPlain(x: string, y: string)
    requires Plain(x) && Plain(y)
    ensures Expand(x + (" => " + y)) == (x, y)
  {
    hide Find, Sides;
    FindNone(x + (" => " + y), '{');
    SidesOf(x, y);
  }
}
