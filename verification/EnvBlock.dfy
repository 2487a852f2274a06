/** An environment block: the variables of a process as one buffer of NUL-terminated strings
    with one more NUL at the end, edited in place. */
module EnvBlock {
  import opened Bytes
  import opened Letters
  import opened Options

  // ---------------------------------------------------------------- strings in the buffer

  function StrLen(b: string, i: nat): (n: nat)
    requires i <= |b|
    ensures i + n <= |b| && NUL !in b[i..i + n] && (i + n < |b| ==> b[i + n] == NUL)
    decreases |b| - i
  {
    if i == |b| || b[i] == NUL then 0
    else
      var n := StrLen(b, i + 1);
      assert b[i..i + 1 + n] == [b[i]] + b[i + 1..i + 1 + n];
      1 + n
  }

  /** The string that begins at `i`. */
  function Str(b: string, i: nat): (s: string)
    requires i <= |b|
    ensures i + |s| <= |b| && NUL !in s
  {
    b[i..i + StrLen(b, i)]
  }

  lemma {:induction false} StrLenIs(b: string, i: nat, n: nat)
    requires i + n < |b| && NUL !in b[i..i + n] && b[i + n] == NUL
    ensures StrLen(b, i) == n
    decreases n
  {
    if n > 0 {
      assert b[i] == b[i..i + n][0];
      assert b[i + 1..i + n] == b[i..i + n][1..];
      StrLenIs(b, i + 1, n - 1);
    }
  }

  function Lower(c: char): char { if 'A' <= c <= 'Z' then c + 32 as char else c }

  function Fold(s: string): string { seq(|s|, i requires 0 <= i < |s| => Lower(s[i])) }

  predicate SameName(a: string, b: string) { Fold(a) == Fold(b) }

  /** How many characters at the start of `s` are, or are not, an equals sign. */
  function Run(s: string, equals: bool): (n: nat)
    ensures n <= |s|
  {
    if |s| > 0 && (s[0] == '=') == equals then 1 + Run(s[1..], equals) else 0
  }

  /** The name of a variable: leading equals signs are skipped, as for the current directories
      of drives. */
  function Name(entry: string): string {
    var tail := entry[Run(entry, true)..];
    tail[..Run(tail, false)]
  }

  function ValueStart(entry: string): nat { Run(entry, true) + |Name(entry)| + 1 }

  function Value(entry: string): string {
    if ValueStart(entry) <= |entry| then entry[ValueStart(entry)..] else []
  }

  // ---------------------------------------------------------------- the buffer as it is

  predicate Terminated(b: string) { |b| > 0 ==> b[|b| - 1] == NUL }

  /** The index of the first string from `i` on that is the variable; the size if none is. */
  function FindVar(b: string, name: string, i: nat): (r: nat)
    requires i <= |b| && Terminated(b)
    ensures i <= r <= |b| && (r == i || b[r - 1] == NUL)
    decreases |b| - i
  {
    if i == |b| then i
    else if SameName(Name(Str(b, i)), name) then i
    else FindVar(b, name, i + |Str(b, i)| + 1)
  }

  function Lookup(b: string, name: string): string
    requires Terminated(b)
  {
    var i := FindVar(b, name, 0);
    if i < |b| && i + ValueStart(Str(b, i)) <= |b| then Str(b, i + ValueStart(Str(b, i))) else []
  }

  /** Replaces the string at `i`, or drops it with its NUL. */
  function Overwrite(b: string, i: nat, text: Option<string>): string
    requires i < |b| && Terminated(b)
  {
    var tail := b[i + |Str(b, i)|..];
    match text
    case None => b[..i] + tail[1..]
    case Some(t) => b[..i] + t + tail
  }

  function Assignment(name: string, value: string): string { name + ['='] + value }

  lemma AssignmentText(pre: string, name: string, value: string, tail: string)
    ensures (pre + name + ['=']) + value + tail == pre + Assignment(name, value) + tail
  {
  }

  function SetVar(b: string, name: string, value: Option<string>): string
    requires Terminated(b)
  {
    var i := FindVar(b, name, 0);
    match value
    case None => if i == |b| then b else Overwrite(b, i, None)
    case Some(v) =>
      if i < |b| then Overwrite(b, i, Some(Assignment(name, v)))
      else if |b| == 0 then Overwrite([NUL, NUL], 0, Some(Assignment(name, v)))
      else Overwrite(b + [NUL], |b| - 1, Some(Assignment(name, v)))
  }

  /** The buffer still ends with a NUL, and holds something after an assignment to a name. */
  lemma OverwriteKeeps(b: string, i: nat, name: string, value: Option<string>)
    requires Terminated(b) && i < |b| && (value.None? && i > 0 ==> b[i - 1] == NUL)
    ensures var r := Overwrite(b, i, if value.None? then None else Some(Assignment(name, value.value)));
            Terminated(r) && (value.Some? && name != [] ==> |r| >= 3)
  {
    var tail := b[i + |Str(b, i)|..];
    assert tail[|tail| - 1] == b[|b| - 1];
  }

  function TrimRight(s: string, c: char): (r: string)
    ensures r <= s
  {
    if |s| > 0 && s[|s| - 1] == c then TrimRight(s[..|s| - 1], c) else s
  }

  predicate Contains(s: string, part: string) {
    exists i: nat :: i <= |s| && OccursAt(s, part, i)
  }

  predicate OccursAt(s: string, part: string, i: nat) {
    i + |part| <= |s| && s[i..i + |part|] == part
  }

  /** The search path with a directory added, unless nothing is to be added. */
  function AddedPath(path: string, value: string): Option<string> {
    var dir, list := TrimRight(value, '\\'), TrimRight(path, ';') + ";";
    if |dir| == 0 || Contains(list, dir + ";") || Contains(list, dir + "\\;") then None
    else Some(list + dir)
  }

  function WithPath(b: string, value: string): string
    requires Terminated(b)
  {
    match AddedPath(Lookup(b, "PATH"), value)
    case None => b
    case Some(path) => SetVar(b, "PATH", Some(path))
  }

  class Environment {
    var b: string
    var hasBase: bool   // whether the address handed out is not null

    ghost predicate Valid()
      reads this
    {
      Terminated(b) && hasBase == !Empty()
    }

    function Empty(): bool
      reads this
    {
      |b| < 3
    }

    constructor ()
      ensures Valid() && b == []
    {
      b, hasBase := [], false;
    }

    method Clear()
      modifies this
      ensures Valid() && b == []
    {
      b, hasBase := [], false;
    }

    method Find(name: string) returns (i: nat)
      requires Terminated(b)
      ensures i == FindVar(b, name, 0)
    {
      hide SameName, Name, StrLen, Str, FindVar;
      i := 0;
      FindNothing(b, name);
      while i < |b|
        invariant i <= |b| && FindVar(b, name, 0) == FindVar(b, name, i)
      {
        FindStep(b, i, name);
        var str := Str(b, i);
        if SameName(Name(str), name) {
          return;
        }
        i := i + |str| + 1;
      }
    }

    method GetEnv(name: string) returns (value: string)
      requires Valid()
      ensures value == Lookup(b, name)
    {
      hide FindVar, ValueStart, StrLen;
      var i := Find(name);
      if i < |b| && i + ValueStart(Str(b, i)) <= |b| {
        return Str(b, i + ValueStart(Str(b, i)));
      }
      value := [];
    }

    /** Erases characters at `i` up to the next NUL. */
    method EraseString(i: nat)
      requires i < |b| && Terminated(b)
      modifies this`b
      ensures i < |b| && b[..i] == old(b[..i]) && b[i..] == old(b[i + |Str(b, i)|..])
    {
      hide StrLen;
      ghost var k := 0;
      while b[i] != NUL
        invariant i + k < |old(b)| && i < |b| && b[..i] == old(b[..i]) && b[i..] == old(b[i + k..])
        invariant NUL !in old(b[i..i + k])
        decreases |b|
      {
        assert b[i] == b[i..][0] && old(b[i + k]) == old(b[i + k..])[0];
        assert old(b[i..i + k + 1]) == old(b[i..i + k]) + [b[i]];
        assert b[i + 1..] == b[i..][1..] == old(b[i + k + 1..]);
        b := b[..i] + b[i + 1..];
        k := k + 1;
      }
      assert b[i] == b[i..][0] && old(b[i + k]) == old(b[i + k..])[0];
      StrLenIs(old(b), i, k);
    }

    /** Inserts characters at `i` one by one; `end` is the index after them. */
    method InsertString(i: nat, text: string) returns (end: nat)
      requires i <= |b|
      modifies this`b
      ensures end == i + |text| && end <= |b|
      ensures b[..end] == old(b[..i]) + text && b[end..] == old(b[i..])
    {
      end := i;
      for k := 0 to |text|
        invariant end == i + k && end <= |b| && b[..end] == old(b[..i]) + text[..k] && b[end..] == old(b[i..])
      {
        assert text[..k + 1] == text[..k] + [text[k]];
        b := b[..end] + [text[k]] + b[end..];
        end := end + 1;
      }
      assert text[..|text|] == text;
    }

    /** Adds or replaces a variable, or removes it if there is no value. */
    method SetEnv(name: string, value: Option<string>)
      requires Valid()
      modifies this
      ensures b == SetVar(old(b), name, value)
      ensures Terminated(b) && (name != [] || value.None? ==> Valid())
    {
      hide FindVar, StrLen, Str;
      var i := Find(name);
      if i == |b| {
        if value.None? {
          return;
        }
        if i == 0 {
          b := b + [NUL];
          i := i + 1;
        }
        i := i - 1;
        b := b + [NUL];
      }
      ghost var b1 := b;
      assert b1 == old(b) || b1 == (if |old(b)| == 0 then [NUL, NUL] else old(b) + [NUL]);
      Rewrite(i, name, value);
    }

    /** Replaces the string at `i` by an assignment, or drops it. */
    method Rewrite(i: nat, name: string, value: Option<string>)
      requires Terminated(b) && i < |b| && (value.None? && i > 0 ==> b[i - 1] == NUL)
      modifies this
      ensures b == Overwrite(old(b), i, if value.None? then None else Some(Assignment(name, value.value)))
      ensures Terminated(b) && (name != [] || value.None? ==> Valid())
    {
      OverwriteKeeps(b, i, name, value);
      ghost var pre, tail := b[..i], b[i + |Str(b, i)|..];
      assert b[i + |Str(b, i)|..] == tail;
      EraseString(i);
      hide StrLen, Str, Terminated, Assignment;
      assert b[..i] == pre && b[i..] == tail;
      if value.None? {
        b := b[..i] + b[i + 1..];
        assert b == pre + tail[1..];
        hasBase := !Empty();
      } else {
        InsertAssignment(i, name, value.value);
        hasBase := true;
      }
    }

    method InsertAssignment(i: nat, name: string, value: string)
      requires i <= |b|
      modifies this`b
      ensures b == old(b[..i]) + Assignment(name, value) + old(b[i..])
    {
      ghost var pre, tail := b[..i], b[i..];
      var end := InsertString(i, name);
      end := InsertString(end, ['=']);
      end := InsertString(end, value);
      assert b == b[..end] + b[end..];
      AssignmentText(pre, name, value, tail);
    }

    /** Appends the variables of the process, whose block ends at its first double NUL. */
    method CopyProcessEnvironment(original: string)
      requires Valid() && DoubleNul(original, 0) < |original|
      modifies this
      ensures Terminated(b) && b == Copied(old(b), original) && (|b| > 2 ==> Valid())
    {
      hide DoubleNul;
      if !Empty() {
        b := b[..|b| - 1];
      }
      ghost var start := b;
      var p := 0;
      DoubleNulHere(original, 0);
      while original[p] != NUL || original[p + 1] != NUL
        invariant p <= DoubleNul(original, 0) == DoubleNul(original, p) && p + 1 < |original|
        invariant b == start + original[..p]
        decreases |original| - p
      {
        DoubleNulHere(original, p);
        assert original[..p + 1] == original[..p] + [original[p]];
        b := b + [original[p]];
        p := p + 1;
        DoubleNulHere(original, p);
      }
      DoubleNulHere(original, p);
      b := b + [NUL];
      b := b + [NUL];
      hasBase := true;
    }

    /** Appends a directory to the search path unless it is listed already. */
    method AddToPath(value: string)
      requires Valid()
      modifies this
      ensures Valid() && b == WithPath(old(b), value)
    {
      hide Lookup, SetVar, Contains;
      var dir := TrimRight(value, '\\');
      if |dir| == 0 {
        return;
      }
      var path := GetEnv("PATH");
      path := TrimRight(path, ';') + ";";
      if Contains(path, dir + ";") || Contains(path, dir + "\\;") {
        return;
      }
      path := path + dir;
      SetEnv("PATH", Some(path));
    }
  }

  /** The index of the first of two NULs in a row. */
  function DoubleNul(s: string, i: nat): (r: nat)
    ensures i <= |s| ==> i <= r <= |s|
    decreases |s| - i
  {
    if i + 1 >= |s| then |s|
    else if s[i] == NUL && s[i + 1] == NUL then i
    else DoubleNul(s, i + 1)
  }

  lemma DoubleNulHere(s: string, i: nat)
    requires i <= |s| && DoubleNul(s, i) < |s|
    ensures i + 1 < |s|
    ensures DoubleNul(s, i) == if s[i] == NUL && s[i + 1] == NUL then i else DoubleNul(s, i + 1)
  {
  }

  function Copied(b: string, original: string): string {
    (if |b| < 3 then b else b[..|b| - 1]) + original[..DoubleNul(original, 0)] + [NUL] + [NUL]
  }

  // ---------------------------------------------------------------- what the buffer stands for

  /** The text of one variable, as it is in a block. */
  ghost predicate WellFormed(entries: seq<string>) {
    forall k :: 0 <= k < |entries| ==> Variable(entries[k])
  }

  predicate Variable(entry: string) {
    Name(entry) != [] && ValueStart(entry) <= |entry| && NUL !in entry
  }

  ghost predicate Unique(entries: seq<string>) {
    forall i, j :: 0 <= i < j < |entries| ==> !SameName(Name(entries[i]), Name(entries[j]))
  }

  function Text(entries: seq<string>): string {
    if |entries| == 0 then [] else entries[0] + [NUL] + Text(entries[1..])
  }

  function Block(entries: seq<string>): string { Text(entries) + [NUL] }

  /** A new environment is an empty buffer; one whose last variable was removed is a NUL. */
  ghost predicate Holds(b: string, entries: seq<string>) {
    WellFormed(entries) && (b == Block(entries) || (entries == [] && b == []))
  }

  /** The first variable of a name, as an index. */
  function Index(entries: seq<string>, name: string): (f: nat)
    ensures f <= |entries|
  {
    if |entries| == 0 || SameName(Name(entries[0]), name) then 0 else 1 + Index(entries[1..], name)
  }

  function Get(entries: seq<string>, name: string): string {
    var f := Index(entries, name);
    if f < |entries| then Value(entries[f]) else []
  }

  /** A variable is changed where it is, or added at the end. */
  function Set(entries: seq<string>, name: string, value: Option<string>): seq<string> {
    var f := Index(entries, name);
    match value
    case None => if f < |entries| then entries[..f] + entries[f + 1..] else entries
    case Some(v) =>
      if f < |entries| then entries[f := Assignment(name, v)] else entries + [Assignment(name, v)]
  }

  /** The variables by name, regardless of case. */
  function AsMap(entries: seq<string>): map<string, string> {
    if |entries| == 0 then map[] else AsMap(entries[1..])[Fold(Name(entries[0])) := Value(entries[0])]
  }

  predicate PlainName(name: string) { |name| > 0 && '=' !in name && NUL !in name }

  lemma {:induction false} TextJoin(a: seq<string>, c: seq<string>)
    ensures Text(a + c) == Text(a) + Text(c)
  {
    if |a| == 0 {
      assert a + c == c;
    } else {
      assert (a + c)[1..] == a[1..] + c;
      TextJoin(a[1..], c);
    }
  }

  lemma TextAt(entries: seq<string>, f: nat)
    requires f < |entries|
    ensures Text(entries) == Text(entries[..f]) + (entries[f] + [NUL] + Text(entries[f + 1..]))
  {
    assert entries == entries[..f] + entries[f..];
    TextJoin(entries[..f], entries[f..]);
    assert entries[f..][1..] == entries[f + 1..];
  }

  lemma StrAt(b: string, i: nat, s: string, rest: string)
    requires i <= |b| && b[i..] == s + [NUL] + rest && NUL !in s
    ensures Str(b, i) == s && b[i + |s|..] == [NUL] + rest
  {
    assert b[i..i + |s|] == b[i..][..|s|] == s;
    assert b[i + |s|] == b[i..][|s|];
    StrLenIs(b, i, |s|);
    assert b[i + |s|..] == b[i..][|s|..];
  }

  lemma FoldEmpty(name: string)
    requires |name| > 0
    ensures !SameName(Name([]), name)
  {
    assert |Fold(name)| == |name|;
  }

  lemma FindHere(b: string, i: nat, s: string, rest: string, name: string)
    requires Terminated(b) && i <= |b| && b[i..] == s + [NUL] + rest && NUL !in s
    ensures i + |s| + 1 <= |b| && b[i + |s| + 1..] == rest
    ensures FindVar(b, name, i) == if SameName(Name(s), name) then i else FindVar(b, name, i + |s| + 1)
  {
    hide SameName, Name, FindVar, Str, StrLen;
    StrAt(b, i, s, rest);
    assert b[i + |s| + 1..] == b[i + |s|..][1..];
    FindStep(b, i, name);
  }

  lemma FindStep(b: string, i: nat, name: string)
    requires Terminated(b) && i < |b|
    ensures var s := Str(b, i);
            && i + |s| + 1 <= |b|
            && FindVar(b, name, i) == if SameName(Name(s), name) then i else FindVar(b, name, i + |s| + 1)
  {
    hide SameName, Name, StrLen;
  }

  /** The search over the buffer finds what the search over the variables finds. */
  lemma {:induction false} FindInBlock(b: string, i: nat, entries: seq<string>, name: string)
    requires Terminated(b) && i <= |b| && b[i..] == Block(entries) && WellFormed(entries) && |name| > 0
    ensures var f := Index(entries, name);
            FindVar(b, name, i) == if f < |entries| then i + |Text(entries[..f])| else |b|
    decreases |entries|
  {
    hide FindVar, SameName, Name, Variable, WellFormed;
    if |entries| == 0 {
      assert [] + [NUL] + [] == [NUL];
      FindHere(b, i, [], [], name);
      FoldEmpty(name);
      FindNothing(b, name);
    } else {
      var rest := entries[1..];
      FirstOf(entries);
      FindHere(b, i, entries[0], Block(rest), name);
      if !SameName(Name(entries[0]), name) {
        FindInBlock(b, i + |entries[0]| + 1, rest, name);
        FindNext(entries, name);
      } else {
        assert entries[..0] == [];
      }
    }
  }

  /** How the index and its place in the text follow from those in the rest. */
  lemma FindNext(entries: seq<string>, name: string)
    requires |entries| > 0 && !SameName(Name(entries[0]), name)
    ensures var f := Index(entries[1..], name);
            && Index(entries, name) == f + 1
            && (f < |entries| - 1 ==> |Text(entries[..f + 1])| == |entries[0]| + 1 + |Text(entries[1..][..f])|)
  {
    hide Name, SameName;
    var f := Index(entries[1..], name);
    if f < |entries| - 1 {
      assert entries[..f + 1][1..] == entries[1..][..f];
    }
  }

  lemma FindNothing(b: string, name: string)
    requires Terminated(b)
    ensures FindVar(b, name, |b|) == |b|
  {
  }

  // ---------------------------------------------------------------- the buffer refines the variables

  /** Where a variable is in the block, and what surrounds it. */
  lemma InBlock(entries: seq<string>, f: nat)
    requires f < |entries| && WellFormed(entries)
    ensures var b, i := Block(entries), |Text(entries[..f])|;
            && i + |entries[f]| < |b| && b[..i] == Text(entries[..f])
            && b[i..] == entries[f] + [NUL] + Block(entries[f + 1..])
            && Str(b, i) == entries[f] && b[i + |entries[f]|..] == [NUL] + Block(entries[f + 1..])
  {
    assert Variable(entries[f]);
    hide Text, Str, Variable;
    var b, i := Block(entries), |Text(entries[..f])|;
    TextAt(entries, f);
    assert b[i..] == entries[f] + [NUL] + Block(entries[f + 1..]);
    assert NUL !in entries[f] by { VariablePlain(entries[f]); }
    StrAt(b, i, entries[f], Block(entries[f + 1..]));
  }

  lemma VariablePlain(entry: string)
    requires Variable(entry)
    ensures NUL !in entry
  {
  }

  lemma BlockTerminated(entries: seq<string>)
    ensures Terminated(Block(entries))
  {
  }

  lemma OverwriteAt(p: string, s: string, rest: string, text: Option<string>)
    requires NUL !in s && Terminated(p + (s + [NUL] + rest))
    ensures Overwrite(p + (s + [NUL] + rest), |p|, text) ==
              if text.None? then p + rest else p + (text.value + [NUL] + rest)
  {
    hide Str;
    var b := p + (s + [NUL] + rest);
    assert b[|p|..] == s + [NUL] + rest && b[..|p|] == p;
    StrAt(b, |p|, s, rest);
    assert ([NUL] + rest)[1..] == rest;
    if text.Some? {
      assert p + text.value + ([NUL] + rest) == p + (text.value + [NUL] + rest);
    }
  }

  lemma BlockParts(entries: seq<string>, f: nat)
    requires f < |entries|
    ensures Block(entries) == Text(entries[..f]) + (entries[f] + [NUL] + Block(entries[f + 1..]))
  {
    TextAt(entries, f);
  }

  lemma OverwriteEntry(entries: seq<string>, f: nat, text: Option<string>)
    requires f < |entries| && WellFormed(entries)
    ensures |Text(entries[..f])| < |Block(entries)| && Terminated(Block(entries))
    ensures Overwrite(Block(entries), |Text(entries[..f])|, text) ==
              Block(if text.None? then entries[..f] + entries[f + 1..] else entries[f := text.value])
  {
    assert Variable(entries[f]);
    BlockTerminated(entries);
    BlockParts(entries, f);
    hide Overwrite;
    OverwriteAt(Text(entries[..f]), entries[f], Block(entries[f + 1..]), text);
    if text.None? {
      TextJoin(entries[..f], entries[f + 1..]);
    } else {
      var changed := entries[f := text.value];
      BlockParts(changed, f);
      assert changed[..f] == entries[..f] && changed[f + 1..] == entries[f + 1..];
    }
  }

  lemma BlockExtended(entries: seq<string>, t: string)
    ensures |Text(entries)| < |Block(entries) + [NUL]| && Terminated(Block(entries) + [NUL])
    ensures Overwrite(Block(entries) + [NUL], |Text(entries)|, Some(t)) == Block(entries + [t])
  {
    assert Text([t]) == t + [NUL] by {
      assert [t][1..] == [];
      assert Text([]) == [];
    }
    TextJoin(entries, [t]);
    hide Overwrite, Text;
    NulsRegroup(Text(entries), t);
    OverwriteAt(Text(entries), [], [NUL], Some(t));
  }

  lemma NulsRegroup(x: string, t: string)
    ensures (x + [NUL]) + [NUL] == x + ([] + [NUL] + [NUL])
    ensures (x + (t + [NUL])) + [NUL] == x + (t + [NUL] + [NUL])
  {
  }

  lemma AssignmentParts(name: string, value: string)
    requires PlainName(name) && NUL !in value
    ensures Name(Assignment(name, value)) == name && Value(Assignment(name, value)) == value
    ensures Variable(Assignment(name, value))
  {
    var e := Assignment(name, value);
    assert e[0] == name[0];
    assert Run(e, true) == 0;
    assert e[0..] == e == name + (['='] + value);
    RunTo(name, ['='] + value);
    assert e[..|name|] == name && e[|name| + 1..] == value;
  }

  lemma {:induction false} RunTo(name: string, rest: string)
    requires '=' !in name && |rest| > 0 && rest[0] == '='
    ensures Run(name + rest, false) == |name|
  {
    if |name| == 0 {
      assert name + rest == rest;
    } else {
      assert (name + rest)[1..] == name[1..] + rest;
      RunTo(name[1..], rest);
    }
  }

  lemma SetWellFormed(entries: seq<string>, name: string, value: Option<string>)
    requires WellFormed(entries) && PlainName(name) && (value.Some? ==> NUL !in value.value)
    ensures WellFormed(Set(entries, name, value))
  {
    if value.Some? {
      AssignmentParts(name, value.value);
    }
    hide Variable, Index, Assignment;
  }

  /** SetEnv on the buffer is the change of one variable: the block stays well formed, and every
      other variable stays where and what it is. */
  lemma SetVarRefines(b: string, entries: seq<string>, name: string, value: Option<string>)
    requires Holds(b, entries) && PlainName(name) && (value.Some? ==> NUL !in value.value)
    ensures Terminated(b) && Holds(SetVar(b, name, value), Set(entries, name, value))
  {
    SetWellFormed(entries, name, value);
    BlockTerminated(entries);
    if b == Block(entries) {
      SetInBlock(entries, name, value);
    } else {
      SetInNothing(name, value);
      assert value.Some? ==> [] + [Assignment(name, value.value)] == [Assignment(name, value.value)];
    }
  }

  lemma SetInBlock(entries: seq<string>, name: string, value: Option<string>)
    requires WellFormed(entries) && |name| > 0
    ensures Terminated(Block(entries)) && SetVar(Block(entries), name, value) == Block(Set(entries, name, value))
  {
    hide Text, FindVar, Overwrite, Index, Assignment, Variable, WellFormed;
    var b, f := Block(entries), Index(entries, name);
    BlockTerminated(entries);
    assert b[0..] == b;
    FindInBlock(b, 0, entries, name);
    if f < |entries| {
      OverwriteEntry(entries, f, if value.None? then None else Some(Assignment(name, value.value)));
    } else if value.Some? {
      BlockExtended(entries, Assignment(name, value.value));
    }
  }

  lemma SetInNothing(name: string, value: Option<string>)
    ensures var r := SetVar([], name, value);
            if value.None? then r == [] else r == Block([Assignment(name, value.value)])
  {
    hide Overwrite, FindVar, Assignment;
    FindNothing([], name);
    if value.Some? {
      BlockExtended([], Assignment(name, value.value));
      assert Block([]) + [NUL] == [NUL, NUL];
      assert [] + [Assignment(name, value.value)] == [Assignment(name, value.value)];
    }
  }

  /** GetEnv on the buffer is the look-up of the variable. */
  lemma LookupRefines(b: string, entries: seq<string>, name: string)
    requires Holds(b, entries) && PlainName(name)
    ensures Terminated(b) && Lookup(b, name) == Get(entries, name)
  {
    hide Text, FindVar, Index, Variable, ValueStart, Str;
    BlockTerminated(entries);
    if b == Block(entries) {
      assert b[0..] == b;
      FindInBlock(b, 0, entries, name);
      var f := Index(entries, name);
      if f < |entries| {
        ValueInBlock(entries, f);
      }
    } else {
      FindNothing(b, name);
    }
  }

  lemma ValueInBlock(entries: seq<string>, f: nat)
    requires f < |entries| && WellFormed(entries)
    ensures var b, i := Block(entries), |Text(entries[..f])|;
            && i < |b| && Str(b, i) == entries[f]
            && i + ValueStart(entries[f]) <= |b| && Str(b, i + ValueStart(entries[f])) == Value(entries[f])
  {
    hide Variable, Value, ValueStart, Text, Str;
    InBlock(entries, f);
    assert Variable(entries[f]);
    ValueAt(Block(entries), |Text(entries[..f])|, entries[f], Block(entries[f + 1..]));
  }

  lemma ValueAt(b: string, i: nat, e: string, rest: string)
    requires i <= |b| && b[i..] == e + [NUL] + rest && Variable(e)
    ensures i + ValueStart(e) <= |b| && Str(b, i + ValueStart(e)) == Value(e)
  {
    ValueIs(e);
    hide Variable, ValueStart, Value, Str;
    EndOf(b, i, e, rest, ValueStart(e));
    StrAt(b, i + ValueStart(e), e[ValueStart(e)..], rest);
  }

  lemma ValueIs(e: string)
    requires Variable(e)
    ensures ValueStart(e) <= |e| && Value(e) == e[ValueStart(e)..] && NUL !in e
  {
  }

  lemma EndOf(b: string, i: nat, s: string, rest: string, v: nat)
    requires i <= |b| && b[i..] == s + [NUL] + rest && v <= |s| && NUL !in s
    ensures i + v <= |b| && b[i + v..] == s[v..] + [NUL] + rest && NUL !in s[v..]
  {
    assert b[i + v..] == b[i..][v..];
  }

  // ---------------------------------------------------------------- the variables are a map

  lemma {:induction false} IndexUnique(entries: seq<string>, name: string)
    ensures Index(entries, name) == |entries| <==> Fold(name) !in AsMap(entries)
    ensures var f := Index(entries, name); f < |entries| ==>
              SameName(Name(entries[f]), name) && AsMap(entries)[Fold(name)] == Value(entries[f])
  {
    if |entries| > 0 {
      IndexUnique(entries[1..], name);
    }
  }

  /** Reading a variable is looking it up in the map. */
  lemma GetIsLookup(entries: seq<string>, name: string)
    ensures Get(entries, name) == if Fold(name) in AsMap(entries) then AsMap(entries)[Fold(name)] else []
  {
    IndexUnique(entries, name);
  }

  /** Set, by what it does to the first variable. */
  lemma SetFirst(entries: seq<string>, name: string, value: Option<string>)
    requires |entries| > 0
    ensures var e, rest, after := entries[0], entries[1..], Set(entries, name, value);
            if SameName(Name(e), name) then after == (if value.Some? then [Assignment(name, value.value)] + rest else rest)
            else after == [e] + Set(rest, name, value)
  {
    hide Assignment, SameName, Name;
    var e, rest := entries[0], entries[1..];
    assert entries == [e] + rest;
    if !SameName(Name(e), name) {
      var f := Index(rest, name);
      assert Index(entries, name) == f + 1;
      hide Index;
      if value.Some? {
        var a := Assignment(name, value.value);
        if f < |rest| {
          assert entries[f + 1 := a] == [e] + rest[f := a];
        } else {
          assert entries + [a] == [e] + (rest + [a]);
        }
      } else if f < |rest| {
        assert entries[..f + 1] == [e] + rest[..f] && entries[f + 2..] == rest[f + 1..];
        assert entries[..f + 1] + entries[f + 2..] == [e] + (rest[..f] + rest[f + 1..]);
      }
    }
  }

  lemma MapFirst(e: string, rest: seq<string>)
    ensures AsMap([e] + rest) == AsMap(rest)[Fold(Name(e)) := Value(e)]
  {
    assert ([e] + rest)[1..] == rest;
  }

  function Updated(m: map<string, string>, name: string, value: Option<string>): map<string, string> {
    if value.Some? then m[Fold(name) := value.value] else m - {Fold(name)}
  }

  lemma UpdatesCommute(m: map<string, string>, k: string, v: string, name: string, value: Option<string>)
    requires k != Fold(name)
    ensures Updated(m, name, value)[k := v] == Updated(m[k := v], name, value)
  {
  }

  lemma UpdatedHere(m: map<string, string>, k: string, v: string, name: string, value: Option<string>)
    requires k == Fold(name) && k !in m
    ensures Updated(m[k := v], name, value) == if value.Some? then m[k := value.value] else m
  {
  }

  /** Setting and removing a variable changes the map at that name and nowhere else. */
  lemma {:induction false} SetIsUpdate(entries: seq<string>, name: string, value: Option<string>)
    requires Unique(entries) && PlainName(name) && (value.Some? ==> NUL !in value.value)
    ensures AsMap(Set(entries, name, value)) == Updated(AsMap(entries), name, value)
    decreases |entries|
  {
    if |entries| == 0 {
      SetOnNothing(name, value);
    } else {
      var e, rest := entries[0], entries[1..];
      SetFirst(entries, name, value);
      assert entries == [e] + rest;
      MapFirst(e, rest);
      if SameName(Name(e), name) {
        IndexAfter(entries, name);
        SetFirstIsUpdate(e, rest, name, value);
      } else {
        UniqueRest(entries);
        SetIsUpdate(rest, name, value);
        hide AsMap, Set, Index, Updated, Unique, Assignment;
        MapFirst(e, Set(rest, name, value));
        UpdatesCommute(AsMap(rest), Fold(Name(e)), Value(e), name, value);
      }
    }
  }

  lemma UniqueRest(entries: seq<string>)
    requires Unique(entries) && |entries| > 0
    ensures Unique(entries[1..])
  {
  }

  lemma SetFirstIsUpdate(e: string, rest: seq<string>, name: string, value: Option<string>)
    requires SameName(Name(e), name) && Index(rest, name) == |rest|
    requires PlainName(name) && (value.Some? ==> NUL !in value.value)
    ensures AsMap(if value.Some? then [Assignment(name, value.value)] + rest else rest)
         == Updated(AsMap([e] + rest), name, value)
  {
    IndexUnique(rest, name);
    MapFirst(e, rest);
    if value.Some? {
      AssignmentParts(name, value.value);
      MapFirst(Assignment(name, value.value), rest);
    }
    hide AsMap, Index, Updated, Name, Value, Assignment, Fold;
    UpdatedHere(AsMap(rest), Fold(name), Value(e), name, value);
  }

  lemma SetOnNothing(name: string, value: Option<string>)
    requires PlainName(name) && (value.Some? ==> NUL !in value.value)
    ensures AsMap(Set([], name, value)) == if value.Some? then map[Fold(name) := value.value] else map[]
  {
    if value.Some? {
      AssignmentParts(name, value.value);
      hide Name, Fold, Value, Assignment;
      assert Set([], name, value) == [Assignment(name, value.value)] + [];
      MapFirst(Assignment(name, value.value), []);
    }
  }

  /** With unique names no later variable has the name of the first one. */
  lemma {:induction false} IndexAfter(entries: seq<string>, name: string)
    requires Unique(entries) && |entries| > 0 && SameName(Name(entries[0]), name)
    ensures Index(entries[1..], name) == |entries[1..]|
  {
    var rest := entries[1..];
    forall k | 0 <= k < |rest| ensures !SameName(Name(rest[k]), name) {
      assert rest[k] == entries[k + 1];
      assert !SameName(Name(entries[0]), Name(entries[k + 1]));
    }
    IndexUnique(rest, name);
  }

  /** Names stay unique. */
  lemma {:induction false} SetKeepsUnique(entries: seq<string>, name: string, value: Option<string>)
    requires Unique(entries) && PlainName(name) && (value.Some? ==> NUL !in value.value)
    ensures Unique(Set(entries, name, value))
  {
    IndexUnique(entries, name);
    NotFound(entries, name);
    if value.Some? {
      AssignmentParts(name, value.value);
    }
    hide Name, Fold, Assignment, AsMap, Index;
  }

  lemma {:induction false} NotFound(entries: seq<string>, name: string)
    ensures forall k :: 0 <= k < Index(entries, name) ==> !SameName(Name(entries[k]), name)
  {
    hide Name, SameName;
    if |entries| > 0 && !SameName(Name(entries[0]), name) {
      NotFound(entries[1..], name);
    }
  }

  /** The buffer behaves as a map with unique names: after SetEnv, reading gives the new value
      under that name, nothing after a removal, and what it was under every other name. */
  lemma BlockIsMap(b: string, entries: seq<string>, name: string, value: Option<string>, other: string)
    requires Holds(b, entries) && Unique(entries)
    requires PlainName(name) && PlainName(other) && (value.Some? ==> NUL !in value.value)
    ensures var after := Set(entries, name, value);
            Terminated(b) && Holds(SetVar(b, name, value), after) && Unique(after)
    ensures Terminated(SetVar(b, name, value))
    ensures Lookup(SetVar(b, name, value), other) ==
              if !SameName(other, name) then Lookup(b, other)
              else if value.Some? then value.value else []
  {
    hide Lookup, SetVar, Set, Get, Unique, Fold, Holds, PlainName, Terminated;
    SetVarRefines(b, entries, name, value);
    SetKeepsUnique(entries, name, value);
    LookupRefines(b, entries, other);
    LookupRefines(SetVar(b, name, value), Set(entries, name, value), other);
    SetThenGet(entries, name, value, other);
  }

  lemma SetThenGet(entries: seq<string>, name: string, value: Option<string>, other: string)
    requires Unique(entries) && PlainName(name) && (value.Some? ==> NUL !in value.value)
    ensures Get(Set(entries, name, value), other) ==
              if !SameName(other, name) then Get(entries, other)
              else if value.Some? then value.value else []
  {
    SetIsUpdate(entries, name, value);
    hide Set, Get, AsMap, Unique, Fold;
    GetIsLookup(entries, other);
    GetIsLookup(Set(entries, name, value), other);
  }

  // ---------------------------------------------------------------- variables as they are written

  /** A variable as it is written; `lead` are equals signs before its name. */
  datatype Var = Var(lead: string, name: string, value: string)
  {
    predicate Valid() {
      PlainName(name) && NUL !in value && forall i :: 0 <= i < |lead| ==> lead[i] == '='
    }

    function Line(): string { lead + (name + ("=" + value)) }
  }

  function Lines(vars: seq<Var>): seq<string> {
    seq(|vars|, k requires 0 <= k < |vars| => vars[k].Line())
  }

  /** The variables have names that differ in more than case. */
  ghost predicate Distinct(vars: seq<Var>) {
    && (forall k :: 0 <= k < |vars| ==> vars[k].Valid())
    && (forall j, k :: 0 <= j < k < |vars| ==> !SameButCase(vars[j].name, vars[k].name))
  }

  lemma LowerIs(c: char, d: char)
    ensures Lower(c) == Lower(d) <==> SameLetter(c, d)
  {
    SameLetterIs(c, d);
  }

  lemma SameNameIs(a: string, b: string)
    ensures SameName(a, b) <==> SameButCase(a, b)
  {
    if |a| == |b| {
      forall i | 0 <= i < |a| ensures Lower(a[i]) == Lower(b[i]) <==> SameLetter(a[i], b[i]) {
        LowerIs(a[i], b[i]);
      }
      hide Lower, SameLetter;
      var f, g := Fold(a), Fold(b);
      assert forall i :: 0 <= i < |a| ==> f[i] == Lower(a[i]) && g[i] == Lower(b[i]);
      assert f == g ==> forall i :: 0 <= i < |a| ==> f[i] == g[i];
    } else {
      assert |Fold(a)| == |a| && |Fold(b)| == |b|;
    }
  }

  lemma {:induction false} RunOver(lead: string, rest: string)
    requires (forall i :: 0 <= i < |lead| ==> lead[i] == '=') && (|rest| > 0 ==> rest[0] != '=')
    ensures Run(lead + rest, true) == |lead|
  {
    if |lead| == 0 {
      assert lead + rest == rest;
    } else {
      assert (lead + rest)[1..] == lead[1..] + rest;
      RunOver(lead[1..], rest);
    }
  }

  lemma LineParts(v: Var)
    requires v.Valid()
    ensures Name(v.Line()) == v.name && Value(v.Line()) == v.value && Variable(v.Line())
  {
    var rest := v.name + ("=" + v.value);
    RunOver(v.lead, rest);
    RunTo(v.name, "=" + v.value);
    assert v.Line()[|v.lead|..] == rest;
    assert rest[..|v.name|] == v.name && rest[|v.name| + 1..] == v.value;
    assert v.Line()[|v.lead| + |v.name| + 1..] == rest[|v.name| + 1..];
    hide Run;
  }

  lemma LinesHold(vars: seq<Var>)
    requires Distinct(vars)
    ensures Holds(Block(Lines(vars)), Lines(vars)) && Terminated(Block(Lines(vars)))
    ensures forall k :: 0 <= k < |vars| ==> Name(Lines(vars)[k]) == vars[k].name && Value(Lines(vars)[k]) == vars[k].value
  {
    forall k | 0 <= k < |vars| ensures Variable(vars[k].Line()) && Name(vars[k].Line()) == vars[k].name && Value(vars[k].Line()) == vars[k].value {
      LineParts(vars[k]);
    }
    hide Variable, Name, Value, SameButCase;
    BlockTerminated(Lines(vars));
  }

  lemma {:induction false} IndexIs(entries: seq<string>, name: string, k: nat)
    requires k <= |entries| && (k < |entries| ==> SameName(Name(entries[k]), name))
    requires forall j :: 0 <= j < k ==> !SameName(Name(entries[j]), name)
    ensures Index(entries, name) == k
  {
    hide SameName, Name;
    if k > 0 {
      IndexIs(entries[1..], name, k - 1);
    }
  }

  /** The variable at `k` goes by that name; with `k` the number of variables, none does. */
  ghost predicate IsAt(vars: seq<Var>, name: string, k: nat) {
    && k <= |vars| && (k < |vars| ==> SameButCase(vars[k].name, name))
    && (k == |vars| ==> forall j :: 0 <= j < |vars| ==> !SameButCase(vars[j].name, name))
  }

  lemma SameButCaseTrans(a: string, b: string, name: string)
    requires SameButCase(a, name) && SameButCase(b, name)
    ensures SameButCase(a, b)
  {
    SameNameIs(a, name);
    SameNameIs(b, name);
    SameNameIs(a, b);
  }

  lemma IndexIsAt(vars: seq<Var>, name: string, k: nat)
    requires Distinct(vars) && IsAt(vars, name, k)
    ensures Index(Lines(vars), name) == k
  {
    LinesHold(vars);
    hide Block, Name, SameName, Value, SameButCase;
    forall j | 0 <= j < |vars|
      ensures SameName(Name(Lines(vars)[j]), name) <==> SameButCase(vars[j].name, name)
    {
      SameNameIs(vars[j].name, name);
    }
    forall j | 0 <= j < k ensures !SameButCase(vars[j].name, name) {
      if SameButCase(vars[j].name, name) && k < |vars| {
        SameButCaseTrans(vars[j].name, vars[k].name, name);
      }
    }
    IndexIs(Lines(vars), name, k);
  }

  /** GetEnv reads the variable whose name is the same but for its case, and nothing if none is. */
  lemma VarIsRead(vars: seq<Var>, name: string, k: nat)
    requires Distinct(vars) && PlainName(name) && IsAt(vars, name, k)
    ensures Terminated(Block(Lines(vars)))
    ensures Lookup(Block(Lines(vars)), name) == if k < |vars| then vars[k].value else []
  {
    LinesHold(vars);
    IndexIsAt(vars, name, k);
    hide Lookup, Block, Index, Name, Value, Holds;
    LookupRefines(Block(Lines(vars)), Lines(vars), name);
  }

  /** The variables after SetEnv: that variable is written anew in its place or at the end, or is
      gone. */
  function Changed(vars: seq<Var>, name: string, value: Option<string>, k: nat): seq<Var>
    requires k <= |vars|
  {
    if value.Some? then
      if k < |vars| then vars[k := Var([], name, value.value)] else vars + [Var([], name, value.value)]
    else if k < |vars| then vars[..k] + vars[k + 1..] else vars
  }

  lemma LinesChanged(vars: seq<Var>, name: string, value: Option<string>, k: nat)
    requires k <= |vars| && Index(Lines(vars), name) == k
    ensures Set(Lines(vars), name, value) == Lines(Changed(vars, name, value, k))
  {
    if value.Some? {
      assert Var([], name, value.value).Line() == Assignment(name, value.value);
    }
    hide Index, Var.Line, Assignment;
  }

  /** SetEnv changes the variable whose name is the same but for its case, or adds one if none is,
      and leaves all others as they are; the names stay distinct. */
  lemma VarIsChanged(vars: seq<Var>, name: string, value: Option<string>, k: nat)
    requires Distinct(vars) && PlainName(name) && IsAt(vars, name, k) && (value.Some? ==> NUL !in value.value)
    ensures Terminated(Block(Lines(vars)))
    ensures SetVar(Block(Lines(vars)), name, value) == Block(Lines(Changed(vars, name, value, k)))
    ensures Distinct(Changed(vars, name, value, k))
  {
    LinesHold(vars);
    IndexIsAt(vars, name, k);
    LinesChanged(vars, name, value, k);
    StaysDistinct(vars, name, value, k);
    hide SetVar, Block, Index, Name, Value, Distinct, IsAt, Set, Changed;
    SetInBlock(Lines(vars), name, value);
  }

  lemma StaysDistinct(vars: seq<Var>, name: string, value: Option<string>, k: nat)
    requires Distinct(vars) && PlainName(name) && IsAt(vars, name, k) && (value.Some? ==> NUL !in value.value)
    ensures Distinct(Changed(vars, name, value, k))
  {
    forall j | 0 <= j < |vars| && j != k ensures !SameButCase(vars[j].name, name) && !SameButCase(name, vars[j].name) {
      SameNameIs(vars[j].name, name);
      SameNameIs(name, vars[j].name);
      if SameButCase(vars[j].name, name) && k < |vars| {
        SameButCaseTrans(vars[j].name, vars[k].name, name);
        SameButCaseTrans(vars[k].name, vars[j].name, name);
      }
    }
    hide SameButCase, SameName;
  }

  // ---------------------------------------------------------------- copying the process environment

  lemma {:induction false} NoDoubleNulIn(b: string, i: nat, n: nat)
    requires i + n < |b| && NUL !in b[i..i + n]
    ensures DoubleNul(b, i) == DoubleNul(b, i + n)
    decreases n
  {
    if n > 0 {
      assert b[i] == b[i..i + n][0];
      assert b[i + 1..i + n] == b[i..i + n][1..];
      NoDoubleNulIn(b, i + 1, n - 1);
    }
  }

  /** The first double NUL of a block is its end. */
  lemma {:induction false} DoubleNulEnds(b: string, i: nat, entries: seq<string>)
    requires i <= |b| && b[i..] == Block(entries) && WellFormed(entries) && |entries| > 0
    ensures |b| >= 2 && DoubleNul(b, i) == |b| - 2
    decreases |entries|
  {
    var e, rest := entries[0], entries[1..];
    hide Variable, DoubleNul, Text, WellFormed, Block;
    FirstOf(entries);
    DoubleNulPast(b, i, e, Block(rest));
    if |rest| > 0 {
      StartsPlain(rest);
      DoubleNulEnds(b, i + |e| + 1, rest);
    } else {
      assert Block(rest) == [NUL] by { EmptyBlock(rest); }
    }
  }

  lemma DoubleNulPast(b: string, i: nat, e: string, rest: string)
    requires i <= |b| && b[i..] == e + [NUL] + rest && NUL !in e && |rest| > 0
    ensures |b| == i + |e| + 1 + |rest| && b[i + |e| + 1..] == rest
    ensures DoubleNul(b, i) == if rest[0] == NUL then i + |e| else DoubleNul(b, i + |e| + 1)
  {
    hide DoubleNul;
    EntryChars(b, i, e, rest);
    NoDoubleNulIn(b, i, |e|);
    DoubleNulStep(b, i + |e|);
  }

  /** A block begins with its first variable. */
  lemma FirstOf(entries: seq<string>)
    requires WellFormed(entries) && |entries| > 0
    ensures NUL !in entries[0] && Block(entries) == entries[0] + [NUL] + Block(entries[1..])
    ensures |Block(entries[1..])| > 0 && WellFormed(entries[1..])
  {
    assert Variable(entries[0]);
  }

  lemma EntryChars(b: string, i: nat, e: string, rest: string)
    requires i <= |b| && b[i..] == e + [NUL] + rest && |rest| > 0
    ensures |b| == i + |e| + 1 + |rest| && b[i..i + |e|] == e && b[i + |e| + 1..] == rest
    ensures b[i + |e|] == NUL && b[i + |e| + 1] == rest[0]
  {
    assert b[i..i + |e|] == b[i..][..|e|];
    assert b[i + |e| + 1..] == b[i..][|e| + 1..];
    assert b[i + |e|] == b[i..][|e|] && b[i + |e| + 1] == b[i..][|e| + 1];
  }

  lemma DoubleNulStep(s: string, i: nat)
    requires i + 1 < |s|
    ensures DoubleNul(s, i) == if s[i] == NUL && s[i + 1] == NUL then i else DoubleNul(s, i + 1)
  {
  }

  lemma EmptyBlock(entries: seq<string>)
    requires |entries| == 0
    ensures Block(entries) == [NUL]
  {
  }

  lemma EmptyText()
    ensures Text([]) == []
  {
  }

  lemma StartsPlain(entries: seq<string>)
    requires WellFormed(entries) && |entries| > 0
    ensures |entries[0]| >= 2 && |Block(entries)| > 3 && Block(entries)[0] != NUL
  {
    assert Variable(entries[0]);
    var e := entries[0];
    assert Block(entries)[0] == e[0];
  }

  /** Copying appends the variables of the process, except that a buffer whose last variable
      has been removed keeps its NUL in front of them, and so stands for nothing any more. */
  lemma CopyRefines(b: string, entries: seq<string>, process: seq<string>)
    requires Holds(b, entries) && WellFormed(process) && |process| > 0
    ensures b != [NUL] ==> Holds(Copied(b, Block(process)), entries + process)
    ensures (exists result :: Holds(Copied(b, Block(process)), result)) <==> b != [NUL]
  {
    CopiedIs(b, process);
    hide Copied, Holds, WellFormed;
    if b == [NUL] {
      LeadingNul(Block(process));
    } else {
      CopyAppends(b, entries, process);
      assert Holds(Copied(b, Block(process)), entries + process);
    }
  }

  lemma CopiedIs(b: string, process: seq<string>)
    requires WellFormed(process) && |process| > 0
    ensures Copied(b, Block(process)) == (if |b| < 3 then b else b[..|b| - 1]) + Block(process)
  {
    var block := Block(process);
    StartsPlain(process);
    DoubleNulEnds(block, 0, process);
    EndsWithTwo(process);
    hide DoubleNul, WellFormed, Text;
    var kept := if |b| < 3 then b else b[..|b| - 1];
    assert kept + block[..|block| - 2] + [NUL] + [NUL] == kept + block;
  }

  lemma {:induction false} EndsWithTwo(entries: seq<string>)
    requires |entries| > 0
    ensures |Block(entries)| >= 2
    ensures Block(entries)[|Block(entries)| - 2] == NUL && Block(entries)[|Block(entries)| - 1] == NUL
  {
    var e, rest := entries[0], entries[1..];
    assert Block(entries) == e + [NUL] + Block(rest);
    if |rest| > 0 {
      EndsWithTwo(rest);
    } else {
      EmptyText();
    }
  }

  lemma CopyAppends(b: string, entries: seq<string>, process: seq<string>)
    requires Holds(b, entries) && WellFormed(process) && b != [NUL]
    requires |process| > 0
    ensures Holds((if |b| < 3 then b else b[..|b| - 1]) + Block(process), entries + process)
  {
    if |entries| > 0 {
      StartsPlain(entries);
      TextJoin(entries, process);
      assert b[..|b| - 1] == Text(entries);
      assert Text(entries) + Block(process) == Block(entries + process);
    } else {
      EmptyText();
      assert entries + process == process;
      assert [] + Block(process) == Block(process);
    }
  }

  lemma LeadingNul(block: string)
    requires |block| > 0
    ensures forall result :: !Holds([NUL] + block, result)
  {
    forall result ensures !Holds([NUL] + block, result) {
      if WellFormed(result) {
        if |result| > 0 {
          StartsPlain(result);
        } else {
          assert |Block(result)| == 1;
        }
        assert ([NUL] + block)[0] == NUL;
      }
    }
  }

  // ---------------------------------------------------------------- the empty name

  /** No variable has the empty name, but the end of the block has. */
  lemma {:induction false} FindEmptyName(b: string, i: nat, entries: seq<string>)
    requires Terminated(b) && i <= |b| && b[i..] == Block(entries) && WellFormed(entries)
    ensures |b| > 0 && FindVar(b, [], i) == |b| - 1
    decreases |entries|
  {
    hide FindVar, Variable, WellFormed, Text;
    if |entries| == 0 {
      EmptyBlock(entries);
      assert [] + [NUL] + [] == [NUL];
      FindHere(b, i, [], [], []);
      EmptyNames();
    } else {
      FirstOf(entries);
      FindHere(b, i, entries[0], Block(entries[1..]), []);
      NameNotEmpty(entries);
      FindEmptyName(b, i + |entries[0]| + 1, entries[1..]);
    }
  }

  lemma EmptyNames()
    ensures SameName(Name([]), [])
  {
  }

  lemma NameNotEmpty(entries: seq<string>)
    requires WellFormed(entries) && |entries| > 0
    ensures !SameName(Name(entries[0]), [])
  {
    assert Variable(entries[0]);
    assert |Fold(Name(entries[0]))| == |Name(entries[0])|;
  }

  lemma EmptyNameText(entries: seq<string>, value: Option<string>)
    requires WellFormed(entries)
    ensures Terminated(Block(entries))
    ensures SetVar(Block(entries), [], value)
         == Text(entries) + if value.None? then [] else Assignment([], value.value) + [NUL]
  {
    hide Text, FindVar, Overwrite, Assignment, WellFormed, Variable;
    var b, t := Block(entries), if value.None? then None else Some(Assignment([], value.value));
    BlockTerminated(entries);
    assert b[0..] == b;
    FindEmptyName(b, 0, entries);
    assert b == Text(entries) + ([] + [NUL] + []);
    OverwriteAt(Text(entries), [], [], t);
    assert t.Some? ==> t.value + [NUL] + [] == t.value + [NUL];
  }

  lemma OneNulIsNoBlock(text: string, t: string, entries: seq<string>)
    requires |t| > 0 && t[|t| - 1] != NUL && WellFormed(entries)
    ensures text + (t + [NUL]) != Block(entries)
  {
    var s := text + (t + [NUL]);
    assert s[|s| - 2] == t[|t| - 1];
    if |entries| > 0 {
      EndsWithTwo(entries);
    } else {
      EmptyBlock(entries);
    }
  }

  lemma TextIsNoBlock(entries: seq<string>, result: seq<string>)
    requires WellFormed(entries) && |entries| > 0 && WellFormed(result)
    ensures Text(entries) != [] && Text(entries) != Block(result)
  {
    var last := |entries| - 1;
    assert Variable(entries[last]);
    TextAt(entries, last);
    EmptyText();
    assert entries[last] + [NUL] + [] == entries[last] + [NUL];
    OneNulIsNoBlock(Text(entries[..last]), entries[last], result);
  }

  /** What is done to the variable with the empty name is done to the end of the block: it stays
      well formed only if that variable is removed from a block without any. */
  lemma EmptyNameBreaksBlock(entries: seq<string>, value: Option<string>)
    requires WellFormed(entries) && (value.Some? ==> NUL !in value.value)
    ensures Terminated(Block(entries))
    ensures (exists result :: Holds(SetVar(Block(entries), [], value), result)) <==> value.None? && entries == []
  {
    EmptyNameText(entries, value);
    if value.Some? {
      AssignmentEnds(value.value);
    } else if entries == [] {
      EmptyText();
      assert Holds([], []);
    }
    hide SetVar, Assignment, Block, Text, WellFormed;
    assert Text(entries) + [] == Text(entries);
    if result :| Holds(SetVar(Block(entries), [], value), result) && (value.Some? || entries != []) {
      if value.Some? {
        OneNulIsNoBlock(Text(entries), Assignment([], value.value), result);
      } else {
        TextIsNoBlock(entries, result);
      }
    }
  }

  lemma AssignmentEnds(value: string)
    requires NUL !in value
    ensures var t := Assignment([], value); |t| > 0 && t[|t| - 1] != NUL
  {
    var t := Assignment([], value);
    assert t[0] == '=' && (|value| > 0 ==> t[|t| - 1] == value[|value| - 1]);
  }

  // ---------------------------------------------------------------- the search path

  lemma {:induction false} TrimmedEnd(s: string, c: char)
    ensures |TrimRight(s, c)| > 0 ==> TrimRight(s, c)[|TrimRight(s, c)| - 1] != c
  {
    if |s| > 0 && s[|s| - 1] == c {
      TrimmedEnd(s[..|s| - 1], c);
    }
  }

  lemma PathIsPlain()
    ensures PlainName("PATH")
  {
  }

  lemma GetAfterSet(entries: seq<string>, name: string, value: string)
    requires PlainName(name) && NUL !in value
    ensures Get(Set(entries, name, Some(value)), name) == value
  {
    AssignmentParts(name, value);
    var f := Index(entries, name);
    IndexAt(entries, f, Assignment(name, value), name);
  }

  lemma {:induction false} IndexAt(entries: seq<string>, f: nat, e: string, name: string)
    requires f == Index(entries, name) && SameName(Name(e), name)
    ensures var after := if f < |entries| then entries[f := e] else entries + [e];
            Index(after, name) == f
  {
    hide Name, SameName;
    var after := if f < |entries| then entries[f := e] else entries + [e];
    if |entries| > 0 && !SameName(Name(entries[0]), name) {
      var rest := entries[1..];
      assert after[1..] == if f - 1 < |rest| then rest[f - 1 := e] else rest + [e];
      IndexAt(rest, f - 1, e, name);
    }
  }

  /** The value that AddToPath stores is the one a second AddToPath finds. */
  lemma PathAfter(b: string, entries: seq<string>, path: string)
    requires Holds(b, entries) && NUL !in path
    ensures Terminated(b) && Terminated(SetVar(b, "PATH", Some(path)))
    ensures Lookup(SetVar(b, "PATH", Some(path)), "PATH") == path
  {
    PathIsPlain();
    SetVarRefines(b, entries, "PATH", Some(path));
    hide Set, Get, Lookup, SetVar;
    LookupRefines(SetVar(b, "PATH", Some(path)), Set(entries, "PATH", Some(path)), "PATH");
    GetAfterSet(entries, "PATH", path);
  }

  lemma {:induction false} TrimsOff(s: string, tail: string, c: char)
    requires (forall i :: 0 <= i < |tail| ==> tail[i] == c) && (|s| > 0 ==> s[|s| - 1] != c)
    ensures TrimRight(s + tail, c) == s
  {
    var n := |tail| - 1;
    if |tail| > 0 {
      assert (s + tail)[..|s| + n] == s + tail[..n] && (s + tail)[|s| + n] == tail[n];
      TrimsOff(s, tail[..n], c);
    } else {
      assert s + tail == s;
    }
  }

  /** The directory is in the list, with or without a backslash at its end. */
  predicate IsListed(list: string, dir: string) {
    exists i: nat :: i <= |list| && (dir + ";" <= list[i..] || dir + "\\;" <= list[i..])
  }

  lemma OccursIs(list: string, part: string, i: nat)
    requires i <= |list|
    ensures OccursAt(list, part, i) <==> part <= list[i..]
  {
    if i + |part| <= |list| {
      assert list[i..][..|part|] == list[i..i + |part|];
    }
  }

  lemma ContainsIs(list: string, dir: string)
    ensures Contains(list, dir + ";") || Contains(list, dir + "\\;") <==> IsListed(list, dir)
  {
    forall i: nat | i <= |list|
      ensures OccursAt(list, dir + ";", i) <==> dir + ";" <= list[i..]
      ensures OccursAt(list, dir + "\\;", i) <==> dir + "\\;" <= list[i..]
    {
      OccursIs(list, dir + ";", i);
      OccursIs(list, dir + "\\;", i);
    }
    hide OccursAt;
    if i: nat :| i <= |list| && OccursAt(list, dir + ";", i) {
      assert dir + ";" <= list[i..];
    }
    if i: nat :| i <= |list| && OccursAt(list, dir + "\\;", i) {
      assert dir + "\\;" <= list[i..];
    }
  }

  /** AddToPath extends the search path, in whatever case its name is written, unless the directory
      is listed; semicolons at the end of the path and backslashes at the end of the directory do
      not count. The number of variables grows only if there was no search path. */
  lemma PathIsExtended(vars: seq<Var>, k: nat, path: string, semicolons: string, dir: string, backslashes: string)
    requires Distinct(vars) && IsAt(vars, "PATH", k) && NUL !in dir
    requires if k < |vars| then vars[k].value == path + semicolons else path + semicolons == []
    requires (forall i :: 0 <= i < |semicolons| ==> semicolons[i] == ';') && (|path| > 0 ==> path[|path| - 1] != ';')
    requires (forall i :: 0 <= i < |backslashes| ==> backslashes[i] == '\\') && (|dir| > 0 ==> dir[|dir| - 1] != '\\')
    ensures Terminated(Block(Lines(vars)))
    ensures WithPath(Block(Lines(vars)), dir + backslashes)
         == if dir == [] || IsListed(path + ";", dir) then Block(Lines(vars))
            else Block(Lines(Changed(vars, "PATH", Some(path + ";" + dir), k)))
    ensures k < |vars| ==> |Changed(vars, "PATH", Some(path + ";" + dir), k)| == |vars|
  {
    PathIsPlain();
    assert k < |vars| ==> vars[k].Valid();
    assert NUL !in path by {
      assert k < |vars| ==> forall i :: 0 <= i < |path| ==> path[i] == vars[k].value[i];
    }
    VarIsRead(vars, "PATH", k);
    TrimsOff(path, semicolons, ';');
    TrimsOff(dir, backslashes, '\\');
    ContainsIs(path + ";", dir);
    VarIsChanged(vars, "PATH", Some(path + ";" + dir), k);
    hide Contains, IsListed, Lookup, SetVar, TrimRight, Block, Distinct, IsAt;
  }

  /** A directory that does not end with a semicolon is added at most once. */
  lemma AddToPathOnce(b: string, entries: seq<string>, value: string)
    requires Holds(b, entries) && NUL !in value
    requires var dir := TrimRight(value, '\\'); |dir| > 0 ==> dir[|dir| - 1] != ';'
    ensures Terminated(b) && Terminated(WithPath(b, value))
    ensures WithPath(WithPath(b, value), value) == WithPath(b, value)
  {
    PathIsPlain();
    LookupRefines(b, entries, "PATH");
    var before := Lookup(b, "PATH");
    var added := AddedPath(before, value);
    if added.Some? {
      LookupPlain(b, "PATH");
      AddedPathPlain(before, value);
      PathAfter(b, entries, added.value);
      AddedOnce(before, value);
    }
  }

  lemma LookupPlain(b: string, name: string)
    requires Terminated(b)
    ensures NUL !in Lookup(b, name)
  {
  }

  lemma AddedPathPlain(path: string, value: string)
    requires NUL !in path && NUL !in value && AddedPath(path, value).Some?
    ensures NUL !in AddedPath(path, value).value
  {
  }

  lemma AddedOnce(path: string, value: string)
    requires var dir := TrimRight(value, '\\'); |dir| > 0 ==> dir[|dir| - 1] != ';'
    requires AddedPath(path, value).Some?
    ensures AddedPath(AddedPath(path, value).value, value).None?
  {
    hide Contains;
    var dir, list := TrimRight(value, '\\'), TrimRight(path, ';') + ";";
    var added := list + dir;
    assert added[|added| - 1] == dir[|dir| - 1];
    assert TrimRight(added, ';') == added;
    ContainsAt(added + ";", dir + ";", |list|);
  }

  lemma ContainsAt(s: string, part: string, i: nat)
    requires i + |part| <= |s| && s[i..i + |part|] == part
    ensures Contains(s, part)
  {
    assert OccursAt(s, part, i);
  }

  /** Put after the list, some beginning of `tail` makes `part` its end. */
  predicate Completes(list: string, tail: string, part: string) {
    exists q: nat :: 0 < q <= |tail| && EndsWith(list + tail[..q], part)
  }

  predicate EndsWith(s: string, part: string) {
    |part| <= |s| && s[|s| - |part|..] == part
  }

  lemma ContainsLonger(list: string, tail: string, part: string)
    ensures Contains(list + tail, part) <==> Contains(list, part) || Completes(list, tail, part)
  {
    var s := list + tail;
    if i: nat :| i <= |s| && OccursAt(s, part, i) {
      if i + |part| <= |list| {
        assert list[i..i + |part|] == s[i..i + |part|];
        ContainsAt(list, part, i);
      } else {
        var q := i + |part| - |list|;
        assert (list + tail[..q])[i..] == s[i..i + |part|];
      }
    }
    if i: nat :| i <= |list| && OccursAt(list, part, i) {
      assert s[i..i + |part|] == list[i..i + |part|];
      ContainsAt(s, part, i);
    }
    if q: nat :| 0 < q <= |tail| && EndsWith(list + tail[..q], part) {
      var i := |list| + q - |part|;
      assert s[i..i + |part|] == (list + tail[..q])[i..];
      ContainsAt(s, part, i);
    }
  }

  lemma {:induction false} TrimJoin(a: string, b: string, c: char)
    ensures TrimRight(a + b, c) == if TrimRight(b, c) == [] then TrimRight(a, c) else a + TrimRight(b, c)
  {
    if |b| == 0 {
      assert a + b == a;
    } else if b[|b| - 1] == c {
      assert (a + b)[..|a + b| - 1] == a + b[..|b| - 1];
      TrimJoin(a, b[..|b| - 1], c);
    }
  }

  lemma TrimSemicolon(s: string)
    ensures TrimRight(TrimRight(s, ';') + ";", ';') == TrimRight(s, ';')
  {
    TrimmedEnd(s, ';');
    if |TrimRight(s, ';')| > 0 {
      TrimOne(TrimRight(s, ';'), ';');
    } else {
      assert TrimRight(s, ';') + ";" == ";" && ";"[..0] == [];
    }
  }

  /** What is left of a directory that ends with a semicolon when the next one is added. */
  function Remainder(value: string): string {
    var word := TrimRight(TrimRight(value, '\\'), ';');
    if word == [] then [] else word + ";"
  }

  lemma ListAfter(path: string, value: string)
    requires AddedPath(path, value).Some? && EndsWith(TrimRight(value, '\\'), ";")
    ensures TrimRight(AddedPath(path, value).value, ';') + ";" == TrimRight(path, ';') + ";" + Remainder(value)
  {
    hide TrimRight, Contains;
    var dir, list := TrimRight(value, '\\'), TrimRight(path, ';') + ";";
    TrimJoin(list, dir, ';');
    TrimSemicolon(path);
    var word := TrimRight(dir, ';');
    assert (list + word) + ";" == list + (word + ";") && list + [] == list;
  }

  /** One that does end with a semicolon is added again if and only if what is left of it does
      not happen to complete, together with the end of the list, what is looked for. */
  lemma AddedAgainIsExact(path: string, value: string)
    requires AddedPath(path, value).Some? && EndsWith(TrimRight(value, '\\'), ";")
    ensures var dir, list := TrimRight(value, '\\'), TrimRight(path, ';') + ";";
            AddedPath(AddedPath(path, value).value, value).Some? <==>
              !Completes(list, Remainder(value), dir + ";") && !Completes(list, Remainder(value), dir + "\\;")
  {
    var dir, list := TrimRight(value, '\\'), TrimRight(path, ';') + ";";
    ListAfter(path, value);
    ContainsLonger(list, Remainder(value), dir + ";");
    ContainsLonger(list, Remainder(value), dir + "\\;");
    hide Contains, Completes, Remainder;
  }

  lemma TrimOne(s: string, c: char)
    requires |s| > 0 && s[|s| - 1] != c
    ensures TrimRight(s + [c], c) == s
  {
    assert (s + [c])[..|s|] == s;
  }

  /** In particular, one with no other semicolon is added again and again. */
  lemma AddedAgain(path: string, word: string)
    requires |word| > 0 && ';' !in word && word[|word| - 1] != '\\'
    requires AddedPath(path, word + ";").Some?
    ensures AddedPath(AddedPath(path, word + ";").value, word + ";").Some?
  {
    var value, list := word + ";", TrimRight(path, ';') + ";";
    assert TrimRight(value, '\\') == value;
    TrimOne(word, ';');
    AddedAgainIsExact(path, value);
    NeverCompleted(list, word, value + ";");
    NeverCompleted(list, word, value + "\\;");
  }

  lemma NeverCompleted(list: string, word: string, part: string)
    requires |word| > 0 && ';' !in word && word[|word| - 1] != '\\'
    requires part == word + ";" + ";" || part == word + ";" + "\\;"
    ensures !Completes(list, word + ";", part)
  {
    forall q: nat | 0 < q <= |word| + 1 ensures !EndsWith(list + (word + ";")[..q], part) {
      var s := list + (word + ";")[..q];
      assert s[|s| - 1] == (word + ";")[q - 1] && (q > 1 ==> s[|s| - 2] == (word + ";")[q - 2]);
    }
  }
}
