/** The records in the output of `git log` or `git diff` with raw and numstat output separated
    by NULs, and how they are read from the bytes. */
module LogRecords {
  import opened Bytes
  import opened Options


  /** One record; `oldName` is empty unless the file was renamed or copied. */
  datatype Record =
    | Raw(status: char, merged: bool, modeOld: int, modeNew: int, oldName: string, name: string)
    | Numstat(added: string, removed: string, oldName: string, name: string)

  // ---------------------------------------------------------------- searching

  /** The index of the first `c` from `start` on, or the length if there is none. */
  function FindChar(s: string, c: char, start: nat): (r: nat)
    ensures start <= |s| ==> start <= r <= |s|
    ensures start > |s| ==> r == |s|
    decreases |s| - start
  {
    if start >= |s| then |s| else if s[start] == c then start else FindChar(s, c, start + 1)
  }

  lemma {:induction false} FindFirst(s: string, c: char, start: nat, n: nat)
    requires start <= n <= |s| && c !in s[start..n] && (n < |s| ==> s[n] == c)
    ensures FindChar(s, c, start) == n
    decreases n - start
  {
    if start < n {
      assert s[start] == s[start..n][0];
      assert s[start + 1..n] == s[start..n][1..];
      FindFirst(s, c, start + 1, n);
    }
  }

  // ---------------------------------------------------------------- numbers

  function SkipSpace(s: string): (r: string)
    ensures |r| <= |s|
  {
    if |s| > 0 && (s[0] == ' ' || '\t' <= s[0] <= '\r') then SkipSpace(s[1..]) else s
  }

  function OctalDigits(s: string, v: nat): nat
    decreases |s|
  {
    if |s| > 0 && '0' <= s[0] <= '7' then OctalDigits(s[1..], 8 * v + (s[0] - '0') as nat) else v
  }

  /** strtol with base 8 and a result of 32 bits. */
  function Octal(s: string): int {
    var t := SkipSpace(s);
    var negative := |t| > 0 && t[0] == '-';
    var v := OctalDigits(if negative || (|t| > 0 && t[0] == '+') then t[1..] else t, 0);
    if negative then (if v > INT_MAX + 1 then 0 - INT_MAX - 1 else 0 - v)
    else if v > INT_MAX then INT_MAX else v
  }

  // ---------------------------------------------------------------- reading

  /** A name and what follows its NUL. */
  function ReadName(s: string): Option<(string, string)> {
    var n := FindChar(s, NUL, 0);
    if n == |s| || n == 0 || n >= INT_MAX then None else Some((s[..n], s[n + 1..]))
  }

  /** The names of a record: the old one first if there is one. */
  function ReadNames(s: string, renamed: bool): Option<(string, string, string)> {
    if renamed then
      match ReadName(s)
      case None => None
      case Some(oldName) =>
        match ReadName(oldName.1)
        case None => None
        case Some(name) => Some((oldName.0, name.0, name.1))
    else
      match ReadName(s)
      case None => None
      case Some(name) => Some(([], name.0, name.1))
  }

  /** At least two modes, two hashes of four characters and a status of one. */
  const MIN_HEADER: nat := (6 + 1) + (6 + 1) + (4 + 1) + (4 + 1) + 1

  /** Where the status begins and the header ends. The status is looked for in the last six
      characters before the first NUL. */
  function FindStatus(s: string): (r: Option<(nat, nat)>)
    ensures r.Some? ==> r.value.0 < r.value.1 < |s|
  {
    var statusEnd := FindChar(s, NUL, 0);
    if statusEnd == |s| || statusEnd < MIN_HEADER then None
    else
      var space := FindChar(s, ' ', statusEnd - 6);
      if space == |s| then None
      else
        var end := FindChar(s, NUL, space + 1);
        if end == |s| || end == space + 1 then None else Some((space + 1, end))
  }

  predicate IsRename(status: char) { status == 'C' || status == 'R' }

  /** A raw record, from its last colon on. */
  function ReadRaw(s: string, merged: bool): Option<(Record, string)> {
    match FindStatus(s)
    case None => None
    case Some(at) =>
      var status := s[at.0];
      match ReadNames(s[at.1 + 1..], IsRename(status))
      case None => None
      case Some(names) =>
        Some((Raw(status, merged, Octal(s[1..]), Octal(Drop(s, 7)), names.0, names.1), names.2))
  }

  function Drop(s: string, n: nat): string { if n <= |s| then s[n..] else [] }

  /** What precedes the next tab, and what follows it. */
  function ReadCount(s: string): Option<(string, string)> {
    var n := FindChar(s, '\t', 0);
    if n == |s| || n >= INT_MAX then None else Some((s[..n], s[n + 1..]))
  }

  function ReadNumstat(s: string): Option<(Record, string)> {
    match ReadCount(s)
    case None => None
    case Some(added) =>
      match ReadCount(added.1)
      case None => None
      case Some(removed) =>
        var v := removed.1;
        if |v| == 0 then None
        else
          match ReadNames(if v[0] == NUL then v[1..] else v, v[0] == NUL)
          case None => None
          case Some(names) => Some((Numstat(added.0, removed.0, names.0, names.1), names.2))
  }

  lemma ReadNameShorter(s: string)
    ensures ReadName(s).Some? ==> |ReadName(s).value.1| < |s|
  {
  }

  lemma ReadNamesShorter(s: string, renamed: bool)
    ensures ReadNames(s, renamed).Some? ==> |ReadNames(s, renamed).value.2| < |s|
  {
    ReadNameShorter(s);
    if renamed && ReadName(s).Some? {
      ReadNameShorter(ReadName(s).value.1);
    }
  }

  /** One record and what follows it; None is the error return. */
  function ReadRecord(s: string): (r: Option<(Record, string)>)
    requires |s| > 0
    ensures r.Some? ==> |r.value.1| < |s|
  {
    if s[0] != ':' then
      RawShorter(s, false);
      NumstatShorter(s);
      ReadNumstat(s)
    else if |s| == 1 then None
    else if s[1] == ':' then
      RawShorter(s[1..], true);
      ReadRaw(s[1..], true)
    else
      RawShorter(s, false);
      ReadRaw(s, false)
  }

  lemma RawShorter(s: string, merged: bool)
    ensures ReadRaw(s, merged).Some? ==> |ReadRaw(s, merged).value.1| < |s|
  {
    hide FindStatus, Octal, ReadNames;
    if FindStatus(s).Some? {
      var at := FindStatus(s).value;
      ReadNamesShorter(s[at.1 + 1..], IsRename(s[at.0]));
    }
  }

  lemma NumstatShorter(s: string)
    ensures ReadNumstat(s).Some? ==> |ReadNumstat(s).value.1| < |s|
  {
    hide ReadNames;
    if ReadNumstat(s).Some? {
      var v := ReadCount(ReadCount(s).value.1).value.1;
      ReadNamesShorter(v[1..], true);
      ReadNamesShorter(v, false);
    }
  }

  // ---------------------------------------------------------------- printing

  /** A record as git prints it. `middle` are the hashes, and for a merge the further modes;
      the status may be followed by a score. */
  datatype Printed =
    | PrintedRaw(merged: bool, modeOld: string, modeNew: string, middle: string, status: string, score: string,
                 oldName: string, name: string)
    | PrintedNumstat(added: string, removed: string, oldName: string, name: string)
  {
    predicate WellFormed() {
      && IsName(name)
      && match this
         case PrintedRaw(_, modeOld, modeNew, middle, status, score, oldName, _) =>
           && IsMode(modeOld) && IsMode(modeNew)
           && |middle| >= 4 + 1 + 4 && NUL !in middle && ' ' !in middle[|middle| - 4..]
           && |status| == 1 && IsToken(status + score) && |score| <= 4
           && (if status == "C" || status == "R" then IsName(oldName) else oldName == [])
         case PrintedNumstat(added, removed, oldName, _) =>
           && IsCount(added) && IsCount(removed) && (oldName == [] || IsName(oldName))
    }

    function NameText(): string {
      (if oldName == [] then [] else oldName + [NUL]) + (name + [NUL])
    }

    function Header(): string
      requires PrintedRaw?
    {
      [':'] + (modeOld + ([' '] + (modeNew + ([' '] + (middle + ([' '] + (status + score)))))))
    }

    function Text(): string {
      match this
      case PrintedRaw(merged, _, _, _, _, _, _, _) => (if merged then [':'] else []) + (Header() + ([NUL] + NameText()))
      case PrintedNumstat(added, removed, oldName, _) =>
        added + (['\t'] + (removed + (['\t'] + ((if oldName == [] then [] else [NUL]) + NameText()))))
    }

    function Meaning(): Record
      requires WellFormed()
    {
      match this
      case PrintedRaw(merged, modeOld, modeNew, _, status, _, oldName, name) =>
        Raw(status[0], merged, OctalDigits(modeOld, 0), OctalDigits(modeNew, 0), oldName, name)
      case PrintedNumstat(added, removed, oldName, name) => Numstat(added, removed, oldName, name)
    }
  }

  predicate IsName(s: string) { 0 < |s| < INT_MAX && NUL !in s }

  predicate IsMode(s: string) { |s| == 6 && forall i :: 0 <= i < 6 ==> '0' <= s[i] <= '7' }

  predicate IsToken(s: string) { NUL !in s && ' ' !in s }

  predicate IsCount(s: string) {
    0 < |s| < INT_MAX && forall i :: 0 <= i < |s| ==> '0' <= s[i] <= '9' || s[i] == '-'
  }

  lemma ReadNamePrinted(name: string, rest: string)
    requires IsName(name)
    ensures ReadName(name + ([NUL] + rest)) == Some((name, rest))
  {
    var s := name + ([NUL] + rest);
    assert s[0..|name|] == name;
    FindFirst(s, NUL, 0, |name|);
    assert s[..|name|] == name && s[|name| + 1..] == rest;
  }

  lemma ReadNamesPrinted(oldName: string, name: string, rest: string)
    requires IsName(name) && (oldName == [] || IsName(oldName))
    ensures var s := (if oldName == [] then [] else oldName + [NUL]) + (name + [NUL]) + rest;
            ReadNames(s, oldName != []) == Some((oldName, name, rest))
  {
    ReadNamePrinted(name, rest);
    assert (name + [NUL]) + rest == name + ([NUL] + rest);
    if oldName != [] {
      ReadNamePrinted(oldName, name + ([NUL] + rest));
      assert (oldName + [NUL]) + (name + [NUL]) + rest == oldName + ([NUL] + (name + ([NUL] + rest)));
    } else {
      assert [] + (name + [NUL]) + rest == name + ([NUL] + rest);
    }
  }

  lemma {:induction false} DigitsStop(mode: string, rest: string, v: nat)
    requires forall i :: 0 <= i < |mode| ==> '0' <= mode[i] <= '7'
    requires |rest| > 0 && rest[0] == ' '
    ensures OctalDigits(mode + rest, v) == OctalDigits(mode, v)
    decreases |mode|
  {
    if |mode| == 0 {
      assert mode + rest == rest;
    } else {
      assert (mode + rest)[1..] == mode[1..] + rest;
      DigitsStop(mode[1..], rest, 8 * v + (mode[0] - '0') as nat);
    }
  }

  lemma {:induction false} DigitsBound(mode: string, v: nat, k: nat)
    requires forall i :: 0 <= i < |mode| ==> '0' <= mode[i] <= '7'
    requires |mode| <= k
    ensures OctalDigits(mode, v) < (v + 1) * Pow8(k)
    decreases |mode|
  {
    if |mode| > 0 {
      var d := (mode[0] - '0') as nat;
      DigitsBound(mode[1..], 8 * v + d, k - 1);
      DigitBound(v, d, Pow8(k - 1), OctalDigits(mode, v));
    } else {
      Pow8Positive(k);
      OneOrMore(v, Pow8(k));
    }
  }

  lemma DigitBound(v: nat, d: nat, p: nat, x: nat)
    requires d < 8 && x < (8 * v + d + 1) * p
    ensures x < (v + 1) * (8 * p)
  {
    MulKeepsOrder(8 * v + d + 1, 8 * (v + 1), p);
    MulRegroup(v + 1, p);
  }

  lemma OneOrMore(v: nat, p: nat)
    requires p >= 1
    ensures v < (v + 1) * p
  {
    MulKeepsOrder(1, p, v + 1);
  }

  lemma MulKeepsOrder(a: nat, b: nat, p: nat)
    requires a <= b
    ensures a * p <= b * p
  {
  }

  lemma MulRegroup(a: nat, p: nat)
    ensures (8 * a) * p == a * (8 * p)
  {
  }

  function Pow8(k: nat): nat { if k == 0 then 1 else 8 * Pow8(k - 1) }

  lemma Pow8Positive(k: nat)
    ensures Pow8(k) >= 1
  {
  }

  lemma ReadMode(mode: string, rest: string)
    requires IsMode(mode) && |rest| > 0 && rest[0] == ' '
    ensures Octal(mode + rest) == OctalDigits(mode, 0)
  {
    DigitsStop(mode, rest, 0);
    DigitsBound(mode, 0, 6);
    assert Pow8(6) == 262144;
    assert (mode + rest)[0] == mode[0];
  }

  function DigitAt(mode: string, i: nat): nat
    requires i < |mode| && '0' <= mode[i] <= '7'
  {
    (mode[i] - '0') as nat
  }

  /** A mode is the number that its octal digits stand for. */
  lemma ModeValue(mode: string)
    requires IsMode(mode)
    ensures OctalDigits(mode, 0) == 32768 * DigitAt(mode, 0) + 4096 * DigitAt(mode, 1) + 512 * DigitAt(mode, 2)
                                    + 64 * DigitAt(mode, 3) + 8 * DigitAt(mode, 4) + DigitAt(mode, 5)
  {
    var m1, m2, m3, m4, m5, m6 := mode[1..], mode[2..], mode[3..], mode[4..], mode[5..], mode[6..];
    assert m1[1..] == m2 && m2[1..] == m3 && m3[1..] == m4 && m4[1..] == m5 && m5[1..] == m6 == [];
    var v1 := DigitAt(mode, 0);
    var v2 := 8 * v1 + DigitAt(mode, 1);
    var v3 := 8 * v2 + DigitAt(mode, 2);
    var v4 := 8 * v3 + DigitAt(mode, 3);
    var v5 := 8 * v4 + DigitAt(mode, 4);
    assert OctalDigits(mode, 0) == OctalDigits(m1, v1);
    assert OctalDigits(m1, v1) == OctalDigits(m2, v2);
    assert OctalDigits(m2, v2) == OctalDigits(m3, v3);
    assert OctalDigits(m3, v3) == OctalDigits(m4, v4);
    assert OctalDigits(m4, v4) == OctalDigits(m5, v5);
    assert OctalDigits(m5, v5) == OctalDigits(m6, 8 * v5 + DigitAt(mode, 5));
  }

  /** The number of octal digits, the last one counting once. */
  function Number(digits: string): nat
    requires forall i :: 0 <= i < |digits| ==> '0' <= digits[i] <= '7'
  {
    if |digits| == 0 then 0 else 8 * Number(digits[..|digits| - 1]) + DigitAt(digits, |digits| - 1)
  }

  lemma {:induction false} DigitsAppend(digits: string, c: char, rest: string, v: nat)
    requires (forall i :: 0 <= i < |digits| ==> '0' <= digits[i] <= '7') && '0' <= c <= '7'
    requires |rest| > 0 ==> !('0' <= rest[0] <= '7')
    ensures OctalDigits(digits + [c] + rest, v) == 8 * OctalDigits(digits, v) + (c - '0') as nat
    decreases |digits|
  {
    var s := digits + [c] + rest;
    if |digits| == 0 {
      assert s == [c] + rest && s[1..] == rest;
    } else {
      assert s[1..] == digits[1..] + [c] + rest && s[0] == digits[0];
      DigitsAppend(digits[1..], c, rest, 8 * v + DigitAt(digits, 0));
    }
  }

  lemma {:induction false} DigitsAre(digits: string, rest: string)
    requires forall i :: 0 <= i < |digits| ==> '0' <= digits[i] <= '7'
    requires |rest| > 0 ==> !('0' <= rest[0] <= '7')
    ensures OctalDigits(digits + rest, 0) == Number(digits)
  {
    if |digits| == 0 {
      assert digits + rest == rest;
    } else {
      var n := |digits| - 1;
      DigitsAre(digits[..n], []);
      assert digits[..n] + [] == digits[..n] && digits == digits[..n] + [digits[n]];
      DigitsAppend(digits[..n], digits[n], rest, 0);
    }
  }

  lemma {:induction false} SpaceIsSkipped(space: string, s: string)
    requires forall i :: 0 <= i < |space| ==> space[i] in " \t\n\r" || space[i] == 11 as char || space[i] == 12 as char
    requires |s| > 0 ==> s[0] != ' ' && !('\t' <= s[0] <= '\r')
    ensures SkipSpace(space + s) == s
  {
    if |space| == 0 {
      assert space + s == s;
    } else {
      assert (space + s)[1..] == space[1..] + s;
      SpaceIsSkipped(space[1..], s);
    }
  }

  /** strtol reads a number after white space and a sign, up to what is no octal digit, and a number
      of more than 32 bits as the nearest one. */
  lemma OctalIs(space: string, sign: string, digits: string, rest: string)
    requires forall i :: 0 <= i < |space| ==> space[i] in " \t\n\r" || space[i] == 11 as char || space[i] == 12 as char
    requires |digits| > 0 && forall i :: 0 <= i < |digits| ==> '0' <= digits[i] <= '7'
    requires (sign == "" || sign == "+" || sign == "-") && (|rest| > 0 ==> !('0' <= rest[0] <= '7'))
    ensures var n := if sign == "-" then 0 - Number(digits) else Number(digits);
            Octal(space + (sign + (digits + rest)))
            == if n > 0x7fff_ffff then 0x7fff_ffff else if n < -0x8000_0000 then -0x8000_0000 else n
  {
    var t := sign + (digits + rest);
    assert t[0] == if sign == "" then digits[0] else sign[0];
    SpaceIsSkipped(space, t);
    DigitsAre(digits, rest);
    if sign == "" {
      assert t == digits + rest;
    } else {
      assert t[1..] == digits + rest;
    }
  }

  // ---------------------------------------------------------------- reading inverts printing

  /** Where the status of a printed header is found. */
  lemma HeaderRead(p: Printed, rest: string)
    requires p.PrintedRaw? && p.WellFormed()
    ensures var s, e, k := p.Header() + ([NUL] + rest), |p.Header()|, |p.status + p.score|;
            e >= k && FindStatus(s) == Some((e - k, e)) && s[e - k] == p.status[0] && s[e + 1..] == rest
  {
    hide Printed.Header;
    HeaderPlain(p);
    StatusFound(p.Header(), |p.status + p.score|, rest);
    assert p.Header()[|p.Header()| - |p.status + p.score|..][0] == p.status[0];
  }

  /** The header has no NUL, and ends with the status after a space. */
  lemma HeaderPlain(p: Printed)
    requires p.PrintedRaw? && p.WellFormed()
    ensures var h, token, m := p.Header(), p.status + p.score, |p.middle|;
            && NUL !in h && |h| == 16 + m + |token| && 1 <= |token| <= 5 && m >= 9
            && h[|h| - |token|..] == token && IsToken(token) && h[|h| - |token| - 1] == ' '
            && ' ' !in h[|h| - |token| - 5..|h| - |token| - 1]
  {
    var h, token, m := p.Header(), p.status + p.score, |p.middle|;
    assert h[15..15 + m] == p.middle;
    assert h[15 + m - 4..15 + m] == h[15..15 + m][m - 4..];
  }

  lemma StatusFound(h: string, k: nat, rest: string)
    requires NUL !in h && 1 <= k <= 5 && |h| >= MIN_HEADER + k && h[|h| - k - 1] == ' '
    requires ' ' !in h[|h| - k - 5..|h| - k - 1]
    ensures FindStatus(h + ([NUL] + rest)) == Some((|h| - k, |h|)) && (h + ([NUL] + rest))[|h| + 1..] == rest
  {
    var s, e := h + ([NUL] + rest), |h|;
    assert s[0..e] == h;
    FindFirst(s, NUL, 0, e);
    assert s[e - 6..e - k - 1] == h[e - k - 5..e - k - 1][k - 1..];
    FindFirst(s, ' ', e - 6, e - k - 1);
    assert s[e - k..e] == h[e - k..];
    FindFirst(s, NUL, e - k, e);
  }

  lemma HeaderModes(p: Printed, rest: string)
    requires p.PrintedRaw? && p.WellFormed()
    ensures var s := p.Header() + rest;
            |s| > 7 && Octal(s[1..]) == OctalDigits(p.modeOld, 0) && Octal(Drop(s, 7)) == OctalDigits(p.modeNew, 0)
  {
    hide Octal, OctalDigits;
    var s := p.Header() + rest;
    var tail := p.middle + ([' '] + (p.status + p.score));
    // the second number begins with the space that ends the first one
    assert s[1..] == p.modeOld + ([' '] + (p.modeNew + ([' '] + tail)) + rest);
    ReadMode(p.modeOld, [' '] + (p.modeNew + ([' '] + tail)) + rest);
    assert s[7..] == [' '] + (p.modeNew + ([' '] + tail + rest));
    ReadMode(p.modeNew, [' '] + tail + rest);
    OctalAfterSpace(p.modeNew + ([' '] + tail + rest));
  }

  lemma OctalAfterSpace(s: string)
    ensures Octal([' '] + s) == Octal(s)
  {
    assert ([' '] + s)[1..] == s;
  }

  lemma RawReadsBack(p: Printed, rest: string)
    requires p.PrintedRaw? && p.WellFormed()
    ensures ReadRaw(p.Header() + ([NUL] + (p.NameText() + rest)), p.merged) == Some((p.Meaning(), rest))
  {
    hide FindStatus, ReadNames, Octal, OctalDigits, Printed.Header, Drop, IsName, IsMode, IsToken;
    HeaderRead(p, p.NameText() + rest);
    HeaderModes(p, [NUL] + (p.NameText() + rest));
    NamesReadBack(p, rest);
  }

  lemma NamesReadBack(p: Printed, rest: string)
    requires p.WellFormed()
    ensures ReadNames(p.NameText() + rest, p.oldName != []) == Some((p.oldName, p.name, rest))
    ensures p.PrintedRaw? ==> (IsRename(p.status[0]) <==> p.oldName != [])
  {
    hide ReadNames;
    ReadNamesPrinted(p.oldName, p.name, rest);
  }

  lemma CountEnds(count: string, rest: string)
    requires IsCount(count)
    ensures ReadCount(count + (['\t'] + rest)) == Some((count, rest))
  {
    var s := count + (['\t'] + rest);
    NoTab(count);
    assert |count| < INT_MAX;
    hide IsCount;
    assert s[0..|count|] == count && s[|count| + 1..] == rest;
    FindFirst(s, '\t', 0, |count|);
  }

  lemma NoTab(count: string)
    requires IsCount(count)
    ensures '\t' !in count && count[0] != ':'
  {
    assert forall i :: 0 <= i < |count| ==> count[i] != '\t';
  }

  lemma NumstatReadsBack(p: Printed, rest: string)
    requires p.PrintedNumstat? && p.WellFormed()
    ensures ReadNumstat(p.Text() + rest) == Some((p.Meaning(), rest))
  {
    hide ReadCount, ReadNames, IsCount, IsName;
    var v := (if p.oldName == [] then [] else [NUL]) + (p.NameText() + rest);
    var u := p.removed + (['\t'] + v);
    NumstatText(p, rest);
    CountEnds(p.added, u);
    CountEnds(p.removed, v);
    NamesReadBack(p, rest);
    CountSizes(p);
    if p.oldName == [] {
      assert v == p.NameText() + rest;
    } else {
      assert v[1..] == p.NameText() + rest;
    }
  }

  lemma CountSizes(p: Printed)
    requires p.PrintedNumstat? && p.WellFormed()
    ensures |p.NameText()| > 0
    ensures p.oldName == [] ==> p.NameText()[0] != NUL
  {
    assert p.name[0] in p.name;
  }

  lemma NumstatText(p: Printed, rest: string)
    requires p.PrintedNumstat?
    ensures p.Text() + rest
         == p.added + (['\t'] + (p.removed + (['\t'] + ((if p.oldName == [] then [] else [NUL]) + (p.NameText() + rest)))))
  {
  }

  /** A printed record is read back as what it means, and reading goes on after it. */
  lemma ReadsBack(p: Printed, rest: string)
    requires p.WellFormed()
    ensures |p.Text()| > 0 && ReadRecord(p.Text() + rest) == Some((p.Meaning(), rest))
  {
    hide ReadRaw, ReadNumstat;
    if p.PrintedRaw? {
      var s := p.Header() + ([NUL] + (p.NameText() + rest));
      RawReadsBack(p, rest);
      assert p.Header()[0] == ':' && p.Header()[1] == p.modeOld[0] != ':';
      if p.merged {
        assert p.Text() + rest == [':'] + s;
        assert ([':'] + s)[1..] == s;
      } else {
        assert p.Text() + rest == s;
      }
    } else {
      NumstatReadsBack(p, rest);
      assert p.Text()[0] == p.added[0] != ':';
    }
  }
}
