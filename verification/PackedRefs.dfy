/** The text of a packed-refs file and how it is taken apart. */
module PackedRefs {
  import opened Letters

  /** A commit hash, one number per hexadecimal digit. */
  type Hash = seq<nat>

  const HASH_DIGITS: nat := 40

  function EmptyHash(): Hash { seq(HASH_DIGITS, i => 0) }

  function Nibble(c: char): nat {
    if '0' <= c <= '9' then (c - '0') as nat
    else if 'A' <= c <= 'F' then (c - 'A') as nat + 10
    else if 'a' <= c <= 'f' then (c - 'a') as nat + 10
    else 0
  }

  predicate IsHex(c: char) { '0' <= c <= '9' || 'a' <= c <= 'f' || 'A' <= c <= 'F' }

  predicate IsValidSHA1(s: string) {
    |s| == HASH_DIGITS && forall i :: 0 <= i < |s| ==> IsHex(s[i])
  }

  function FromHexStr(s: string): Hash { seq(|s|, i requires 0 <= i < |s| => Nibble(s[i])) }

  function FromHexStrTry(s: string): Hash {
    if IsValidSHA1(s) then FromHexStr(s) else EmptyHash()
  }

  // ---------------------------------------------------------------- hashes and their texts

  const LOWER_DIGITS: string := "0123456789abcdef"
  const UPPER_DIGITS: string := "0123456789ABCDEF"

  predicate IsHash(h: Hash) { forall i :: 0 <= i < |h| ==> h[i] < 16 }

  /** A hash as text, with the digits of one of the two alphabets. */
  function HexText(h: Hash, digits: string): string
    requires IsHash(h) && |digits| == 16
  {
    seq(|h|, i requires 0 <= i < |h| => digits[h[i]])
  }

  lemma DigitRead(k: nat)
    requires k < 16
    ensures Nibble(LOWER_DIGITS[k]) == k && IsHex(LOWER_DIGITS[k])
    ensures Nibble(UPPER_DIGITS[k]) == k && IsHex(UPPER_DIGITS[k])
  {
  }

  /** Reading the text of a hash, in either case, yields the hash. */
  lemma HashReadsBack(h: Hash)
    requires IsHash(h)
    ensures FromHexStr(HexText(h, LOWER_DIGITS)) == h && FromHexStr(HexText(h, UPPER_DIGITS)) == h
    ensures |h| == HASH_DIGITS ==> IsValidSHA1(HexText(h, LOWER_DIGITS)) && IsValidSHA1(HexText(h, UPPER_DIGITS))
  {
    forall i | 0 <= i < |h|
      ensures Nibble(LOWER_DIGITS[h[i]]) == h[i] && Nibble(UPPER_DIGITS[h[i]]) == h[i]
      ensures IsHex(LOWER_DIGITS[h[i]]) && IsHex(UPPER_DIGITS[h[i]])
    {
      DigitRead(h[i]);
    }
    hide Nibble, IsHex;
  }

  lemma HexDigits(c: char)
    ensures IsHex(c) <==> c in LOWER_DIGITS || c in UPPER_DIGITS
  {
    if IsHex(c) {
      assert LOWER_DIGITS[Nibble(c)] == c || UPPER_DIGITS[Nibble(c)] == c;
    }
  }

  /** The hash has the digits of the text, and a zero for each character that is none. */
  ghost predicate IsWritten(h: Hash, s: string) {
    && |h| == |s| && IsHash(h)
    && forall i :: 0 <= i < |s| ==>
         if s[i] in LOWER_DIGITS || s[i] in UPPER_DIGITS then SameLetter(LOWER_DIGITS[h[i]], s[i]) else h[i] == 0
  }

  lemma DigitWritten(c: char)
    ensures Nibble(c) < 16
    ensures if IsHex(c) then SameLetter(LOWER_DIGITS[Nibble(c)], c) else Nibble(c) == 0
  {
    SameLetterIs(LOWER_DIGITS[Nibble(c)], c);
  }

  /** Whatever text is read, the hash has its digits. */
  lemma TextIsWritten(s: string)
    ensures IsWritten(FromHexStr(s), s)
  {
    forall i | 0 <= i < |s|
      ensures Nibble(s[i]) < 16
      ensures if s[i] in LOWER_DIGITS || s[i] in UPPER_DIGITS then SameLetter(LOWER_DIGITS[Nibble(s[i])], s[i])
              else Nibble(s[i]) == 0
    {
      HexDigits(s[i]);
      DigitWritten(s[i]);
    }
    hide Nibble, IsHex, SameLetter;
  }

  /** A text of digits only is what the hash is printed as, but for the case of its letters. */
  lemma WrittenIsText(h: Hash, s: string)
    requires IsWritten(h, s) && forall i :: 0 <= i < |s| ==> IsHex(s[i])
    ensures SameButCase(HexText(h, LOWER_DIGITS), s)
  {
    forall i | 0 <= i < |s| ensures SameLetter(LOWER_DIGITS[h[i]], s[i]) {
      HexDigits(s[i]);
    }
    hide IsHex, SameLetter;
  }

  lemma SameDigit(c: char, d: char)
    requires IsHex(c) && IsHex(d)
    ensures Nibble(c) == Nibble(d) <==> SameLetter(c, d)
    ensures Nibble(c) == 0 <==> c == '0'
  {
    SameLetterIs(c, d);
  }

  /** Two texts are read as one hash if and only if they are the same but for the case of their
      letters, and a text as the empty hash if and only if it consists of zeros. */
  lemma HashesAreExact(s: string, t: string)
    requires IsValidSHA1(s) && IsValidSHA1(t)
    ensures FromHexStr(s) == FromHexStr(t) <==> SameButCase(s, t)
    ensures FromHexStr(s) == EmptyHash() <==> forall i :: 0 <= i < |s| ==> s[i] == '0'
  {
    forall i | 0 <= i < HASH_DIGITS
      ensures Nibble(s[i]) == Nibble(t[i]) <==> SameLetter(s[i], t[i])
      ensures Nibble(s[i]) == 0 <==> s[i] == '0'
    {
      SameDigit(s[i], t[i]);
    }
    hide Nibble, IsHex, SameLetter;
    var h, g := FromHexStr(s), FromHexStr(t);
    assert forall i :: 0 <= i < HASH_DIGITS ==> h[i] == Nibble(s[i]) && g[i] == Nibble(t[i]);
    assert h == g ==> forall i :: 0 <= i < HASH_DIGITS ==> h[i] == g[i];
    assert h == EmptyHash() <==> forall i :: 0 <= i < HASH_DIGITS ==> h[i] == 0;
  }

  // ---------------------------------------------------------------- the text, piece by piece

  /** The index of the first `c`, or the length if there is none. */
  function Until(b: string, c: char): (n: nat)
    ensures n <= |b| && (n < |b| ==> b[n] == c) && forall i :: 0 <= i < n ==> b[i] != c
  {
    if |b| == 0 || b[0] == c then 0 else 1 + Until(b[1..], c)
  }

  /** What follows the character at `n`, if anything. */
  function After(b: string, n: nat): (rest: string)
    ensures |rest| <= |b| && (|b| > 0 ==> |rest| < |b|)
  {
    if n < |b| then b[n + 1..] else []
  }

  function DropNewlines(b: string): (rest: string)
    ensures |rest| <= |b|
  {
    if |b| > 0 && b[0] == '\n' then DropNewlines(b[1..]) else b
  }

  predicate IsComment(b: string) { |b| > 0 && (b[0] == '#' || b[0] == '^') }

  /** At most one comment line is skipped before each reference. */
  function SkipComment(b: string): (rest: string)
    ensures |rest| <= |b|
  {
    if IsComment(b) then After(b, Until(b, '\n')) else b
  }

  /** The references listed in `b`, on top of those in `refs`. */
  function Parse(b: string, refs: map<string, Hash>): map<string, Hash>
    decreases |b|
  {
    var line := SkipComment(b);
    var hash := line[..Until(line, ' ')];
    var tail := After(line, |hash|);
    if |line| == 0 || |tail| == 0 then refs
    else
      var ref := tail[..Until(tail, '\n')];
      Parse(DropNewlines(tail[|ref|..]), if ref == [] then refs else refs[ref := FromHexStrTry(hash)])
  }

  // ---------------------------------------------------------------- the index-driven loop

  method FindFrom(buff: string, start: nat, c: char) returns (i: nat)
    requires start < |buff|
    ensures i == start + Until(buff[start..], c)
  {
    i := start;
    while buff[i] != c
      invariant start <= i < |buff|
      invariant start + Until(buff[start..], c) == i + Until(buff[i..], c)
      decreases |buff| - i
    {
      assert buff[i..][1..] == buff[i + 1..];
      i := i + 1;
      if i == |buff| {
        break;
      }
    }
  }

  /** Reads the whole text. Where it ends without a newline, the character after the end is
      not looked at. */
  method ReadRefs(buff: string) returns (refs: map<string, Hash>)
    ensures refs == Parse(buff, map[])
  {
    hide Parse, Until, DropNewlines, SkipComment, After;
    refs := map[];
    var i := 0;
    assert buff[0..] == buff;
    while i < |buff|
      invariant i <= |buff| && Parse(buff, map[]) == Parse(buff[i..], refs)
    {
      ghost var start := buff[i..];
      ParseStep(start, refs);
      i := SkipCommentAt(buff, i);
      if i >= |buff| {
        assert SkipComment(start) == [];
        return;
      }
      ghost var line := buff[i..];
      var n := FindFrom(buff, i, ' ');
      var hash := buff[i..n];
      assert line == SkipComment(start) && hash == line[..Until(line, ' ')];
      AfterAt(buff, i, n);
      i := n + 1;
      if i >= |buff| {
        assert After(line, |hash|) == [];
        return;
      }
      var m := FindFrom(buff, i, '\n');
      var ref := buff[i..m];
      ghost var tail := buff[i..];
      assert tail == After(line, |hash|) && ref == tail[..Until(tail, '\n')];
      assert buff[m..] == tail[|ref|..];
      if |ref| > 0 {
        refs := refs[ref := FromHexStrTry(hash)];
      }
      i := DropNewlinesAt(buff, m);
    }
    assert buff[i..] == [];
    ParseNothing(refs);
  }

  method SkipCommentAt(buff: string, start: nat) returns (i: nat)
    requires start < |buff|
    ensures i > |buff| || buff[i..] == SkipComment(buff[start..])
    ensures i > |buff| ==> SkipComment(buff[start..]) == []
    ensures start <= i
  {
    i := start;
    if buff[i] == '#' || buff[i] == '^' {
      i := FindFrom(buff, i, '\n');
      AfterAt(buff, start, i);
      i := i + 1;
    }
  }

  method DropNewlinesAt(buff: string, start: nat) returns (i: nat)
    requires start <= |buff|
    ensures start <= i <= |buff| && buff[i..] == DropNewlines(buff[start..])
  {
    i := start;
    while i < |buff| && buff[i] == '\n'
      invariant start <= i <= |buff| && DropNewlines(buff[start..]) == DropNewlines(buff[i..])
    {
      assert buff[i..][1..] == buff[i + 1..];
      i := i + 1;
    }
  }

  lemma AfterAt(buff: string, start: nat, n: nat)
    requires start <= n <= |buff|
    ensures After(buff[start..], n - start) == if n + 1 <= |buff| then buff[n + 1..] else []
  {
    if n < |buff| {
      assert buff[start..][n - start + 1..] == buff[n + 1..];
    }
  }

  lemma ParseNothing(refs: map<string, Hash>)
    ensures Parse([], refs) == refs
  {
  }

  /** What one turn of the loop does. */
  lemma ParseStep(b: string, refs: map<string, Hash>)
    ensures var line := SkipComment(b);
            var hash := line[..Until(line, ' ')];
            var tail := After(line, |hash|);
            var ref := tail[..Until(tail, '\n')];
            Parse(b, refs) ==
              if |line| == 0 || |tail| == 0 then refs
              else Parse(DropNewlines(tail[|ref|..]), if ref == [] then refs else refs[ref := FromHexStrTry(hash)])
  {
  }

  // ---------------------------------------------------------------- round trip

  /** One reference, and the comment line before it if there is one; a peeled tag is a comment
      line before the next reference. */
  datatype Entry = Entry(comments: seq<string>, hash: string, ref: string)
  {
    ghost predicate WellFormed() {
      && |comments| <= 1
      && (forall k :: 0 <= k < |comments| ==> |comments[k]| > 0 && comments[k][0] in "#^" && '\n' !in comments[k])
      && IsValidSHA1(hash) && |ref| > 0 && '\n' !in ref
    }

    function Text(): string {
      (if |comments| == 0 then [] else comments[0] + ['\n']) + (hash + ([' '] + (ref + ['\n'])))
    }
  }

  function Print(entries: seq<Entry>): string {
    if |entries| == 0 then [] else entries[0].Text() + Print(entries[1..])
  }

  /** Later lines win. */
  function Listed(entries: seq<Entry>, refs: map<string, Hash>): map<string, Hash> {
    if |entries| == 0 then refs
    else Listed(entries[1..], refs[entries[0].ref := FromHexStr(entries[0].hash)])
  }

  lemma UntilSplit(word: string, c: char, rest: string)
    requires c !in word
    ensures Until(word + [c] + rest, c) == |word|
    ensures (word + [c] + rest)[..|word|] == word && After(word + [c] + rest, |word|) == rest
  {
    var b := word + [c] + rest;
    assert b[|word|] == c;
    assert forall i :: 0 <= i < |word| ==> b[i] == word[i];
  }

  lemma ParseEntry(e: Entry, rest: string, refs: map<string, Hash>)
    requires e.WellFormed() && (|rest| > 0 ==> rest[0] != '\n')
    ensures Parse(e.Text() + rest, refs) == Parse(rest, refs[e.ref := FromHexStr(e.hash)])
  {
    hide Parse, Until, DropNewlines, SkipComment, After, FromHexStr;
    var b := e.Text() + rest;
    var tail := e.ref + ['\n'] + rest;
    var line := e.hash + [' '] + tail;
    SkipOne(e, rest);
    ParseStep(b, refs);
    assert forall i :: 0 <= i < |e.hash| ==> IsHex(e.hash[i]);
    UntilSplit(e.hash, ' ', tail);
    UntilSplit(e.ref, '\n', rest);
    assert tail[|e.ref|..] == ['\n'] + rest;
    DropOne(rest);
  }

  lemma DropOne(rest: string)
    requires |rest| > 0 ==> rest[0] != '\n'
    ensures DropNewlines(['\n'] + rest) == rest
  {
    assert (['\n'] + rest)[1..] == rest;
  }

  lemma SkipOne(e: Entry, rest: string)
    requires e.WellFormed()
    ensures SkipComment(e.Text() + rest) == e.hash + [' '] + (e.ref + ['\n'] + rest)
  {
    var line := e.hash + [' '] + (e.ref + ['\n'] + rest);
    assert IsHex(e.hash[0]) && line[0] == e.hash[0];
    if |e.comments| == 0 {
      assert e.Text() + rest == line;
    } else {
      assert e.Text() + rest == e.comments[0] + ['\n'] + line;
      UntilSplit(e.comments[0], '\n', line);
    }
  }

  lemma PrintStart(entries: seq<Entry>)
    requires forall k :: 0 <= k < |entries| ==> entries[k].WellFormed()
    ensures |Print(entries)| > 0 ==> Print(entries)[0] != '\n'
  {
    if |entries| > 0 {
      var e := entries[0];
      assert IsHex(e.hash[0]);
      assert Print(entries)[0] == e.Text()[0];
      assert e.Text()[0] == if |e.comments| == 0 then e.hash[0] else e.comments[0][0];
    }
  }

  /** Reading a well-formed file yields what it lists, the last line of each name winning. */
  lemma {:induction false} ParseInvertsPrint(entries: seq<Entry>, refs: map<string, Hash>)
    requires forall k :: 0 <= k < |entries| ==> entries[k].WellFormed()
    ensures Parse(Print(entries), refs) == Listed(entries, refs)
    decreases |entries|
  {
    if |entries| > 0 {
      var rest := entries[1..];
      PrintStart(rest);
      ParseEntry(entries[0], Print(rest), refs);
      ParseInvertsPrint(rest, refs[entries[0].ref := FromHexStr(entries[0].hash)]);
    }
  }

  lemma {:induction false} ListedIs(entries: seq<Entry>, refs: map<string, Hash>, name: string)
    ensures name in Listed(entries, refs) <==> name in refs || exists i :: 0 <= i < |entries| && entries[i].ref == name
    ensures (forall i :: 0 <= i < |entries| ==> entries[i].ref != name) && name in refs ==> Listed(entries, refs)[name] == refs[name]
    decreases |entries|
  {
    if |entries| > 0 {
      var rest := entries[1..];
      ListedIs(rest, refs[entries[0].ref := FromHexStr(entries[0].hash)], name);
      assert forall i :: 0 < i < |entries| ==> entries[i] == rest[i - 1];
    }
  }

  lemma {:induction false} ListedLast(entries: seq<Entry>, refs: map<string, Hash>, k: nat)
    requires k < |entries| && forall i :: k < i < |entries| ==> entries[i].ref != entries[k].ref
    ensures var e := entries[k]; e.ref in Listed(entries, refs) && Listed(entries, refs)[e.ref] == FromHexStr(e.hash)
    decreases |entries|
  {
    var rest, refs' := entries[1..], refs[entries[0].ref := FromHexStr(entries[0].hash)];
    hide FromHexStr;
    if k == 0 {
      ListedIs(rest, refs', entries[0].ref);
    } else {
      ListedLast(rest, refs', k - 1);
    }
  }

  /** The hash of the last line of a name is read for that name, and no name that has no line. */
  lemma LinesAreListed(entries: seq<Entry>, refs: map<string, Hash>, k: nat)
    requires forall i :: 0 <= i < |entries| ==> entries[i].WellFormed()
    requires k < |entries| && forall i :: k < i < |entries| ==> entries[i].ref != entries[k].ref
    ensures var read := Parse(Print(entries), refs);
            && entries[k].ref in read && IsWritten(read[entries[k].ref], entries[k].hash)
            && forall name :: name in read ==> name in refs || exists i :: 0 <= i < |entries| && entries[i].ref == name
  {
    hide Parse, Print, Listed, FromHexStr;
    ParseInvertsPrint(entries, refs);
    ListedLast(entries, refs, k);
    TextIsWritten(entries[k].hash);
    forall name | name in Listed(entries, refs)
      ensures name in refs || exists i :: 0 <= i < |entries| && entries[i].ref == name
    {
      ListedIs(entries, refs, name);
    }
  }

  /** A second comment line in a row is not skipped: up to its first space it is taken for a
      hash, and from there to its end for a name. What follows the line is read as usual. */
  lemma SecondCommentIsRead(first: string, word: string, name: string, rest: string, refs: map<string, Hash>)
    requires IsComment(first) && '\n' !in first && IsComment(word) && ' ' !in word && '\n' !in name
    requires |rest| > 0 ==> rest[0] != '\n'
    ensures Parse(first + ['\n'] + (word + [' '] + (name + ['\n'] + rest)), refs)
         == Parse(rest, if name == [] then refs else refs[name := EmptyHash()])
  {
    hide Parse, Until, DropNewlines, After;
    var tail := name + ['\n'] + rest;
    var line := word + [' '] + tail;
    var b := first + ['\n'] + line;
    UntilSplit(first, '\n', line);
    assert b[0] == first[0];
    UntilSplit(word, ' ', tail);
    UntilSplit(name, '\n', rest);
    ParseStep(b, refs);
    assert tail[|name|..] == ['\n'] + rest;
    DropOne(rest);
    assert !IsHex(word[0]);
  }

  /** If it has no space, it swallows the hash of the next reference, which is listed without a
      usable one. */
  lemma SecondCommentSpoilsHash(first: string, second: string, hash: string, ref: string, rest: string, refs: map<string, Hash>)
    requires IsComment(first) && '\n' !in first && IsComment(second) && ' ' !in second
    requires ' ' !in hash && |ref| > 0 && '\n' !in ref && (|rest| > 0 ==> rest[0] != '\n')
    ensures Parse(first + ['\n'] + ((second + ['\n'] + hash) + [' '] + (ref + ['\n'] + rest)), refs)
         == Parse(rest, refs[ref := EmptyHash()])
  {
    var joined := second + ['\n'] + hash;
    assert joined[0] == second[0];
    SecondCommentIsRead(first, joined, ref, rest, refs);
  }

  /** If it has one, the rest of it is listed as a reference, and the next one is read. */
  lemma SecondCommentIsListed(first: string, word: string, name: string, e: Entry, rest: string, refs: map<string, Hash>)
    requires IsComment(first) && '\n' !in first && IsComment(word) && ' ' !in word && |name| > 0 && '\n' !in name
    requires e.WellFormed() && e.comments == [] && (|rest| > 0 ==> rest[0] != '\n')
    ensures Parse(first + ['\n'] + (word + [' '] + (name + ['\n'] + (e.Text() + rest))), refs)
         == Parse(rest, refs[name := EmptyHash()][e.ref := FromHexStr(e.hash)])
  {
    assert IsHex(e.hash[0]) && e.Text()[0] == e.hash[0];
    SecondCommentIsRead(first, word, name, e.Text() + rest, refs);
    ParseEntry(e, rest, refs[name := EmptyHash()]);
  }
}
