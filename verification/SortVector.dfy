/** Searching a vector that is sorted by name: one entry by its whole name, or the range of all
    entries below a folder. Names are compare keys, folded already where case is ignored. */
module SortVector {

  type Key = string

  /** The sign of the comparison of two whole names. */
  function Compare(a: Key, b: Key): (r: int)
    ensures -1 <= r <= 1
  {
    if |a| == 0 && |b| == 0 then 0
    else if |a| == 0 then -1
    else if |b| == 0 then 1
    else if a[0] != b[0] then if a[0] < b[0] then -1 else 1
    else Compare(a[1..], b[1..])
  }

  /** The sign of the comparison of as many characters as `p` has. */
  function CompareStart(a: Key, p: Key): (r: int)
    ensures -1 <= r <= 1
  {
    if |p| == 0 then 0
    else if |a| == 0 then -1
    else if a[0] != p[0] then if a[0] < p[0] then -1 else 1
    else CompareStart(a[1..], p[1..])
  }

  function CompareAs(a: Key, key: Key, start: bool): int {
    if start then CompareStart(a, key) else Compare(a, key)
  }

  predicate Matches(a: Key, key: Key, start: bool) { if start then key <= a else a == key }

  ghost predicate Sorted(names: seq<Key>) {
    forall i, j :: 0 <= i <= j < |names| ==> Compare(names[i], names[j]) <= 0
  }

  lemma {:induction false} CompareIsMatch(a: Key, key: Key, start: bool)
    ensures CompareAs(a, key, start) == 0 <==> Matches(a, key, start)
  {
    if |a| > 0 && |key| > 0 {
      CompareIsMatch(a[1..], key[1..], start);
      assert a == [a[0]] + a[1..] && key == [key[0]] + key[1..];
      assert key <= a ==> a[1..][..|key| - 1] == a[..|key|][1..];
    }
  }

  /** A larger name does not compare smaller with any key. */
  lemma {:induction false} CompareGrows(a: Key, b: Key, key: Key, start: bool)
    requires Compare(a, b) <= 0
    ensures CompareAs(a, key, start) <= CompareAs(b, key, start)
  {
    if |a| > 0 && |b| > 0 && |key| > 0 && a[0] == b[0] == key[0] {
      CompareGrows(a[1..], b[1..], key[1..], start);
    }
  }

  const NPOS: int := -1

  ghost predicate Found(names: seq<Key>, key: Key, start: bool, pos: int) {
    if pos == NPOS then forall i :: 0 <= i < |names| ==> !Matches(names[i], key, start)
    else 0 <= pos < |names| && Matches(names[pos], key, start)
  }

  /** Some position of a match, or NPOS if and only if nothing matches. */
  method SearchInSortVector(names: seq<Key>, key: Key, start: bool) returns (pos: int)
    requires Sorted(names)
    ensures Found(names, key, start, pos)
  {
    if |names| == 0 {
      return NPOS;
    }
    var first, last := 0, |names| - 1;
    var mid := (first + last) / 2;
    while !(first == last && first == mid)
      invariant 0 <= first <= mid <= last < |names| && mid == (first + last) / 2
      invariant forall i :: 0 <= i < first ==> CompareAs(names[i], key, start) < 0
      invariant forall i :: last < i < |names| ==> CompareAs(names[i], key, start) > 0
      decreases last - first
    {
      var cmp := CompareAs(names[mid], key, start);
      if cmp == 0 {
        CompareIsMatch(names[mid], key, start);
        return mid;
      } else if cmp < 0 {
        forall i | 0 <= i <= mid ensures CompareAs(names[i], key, start) < 0 {
          CompareGrows(names[i], names[mid], key, start);
        }
        first := mid + 1;
      } else {
        forall i | mid <= i < |names| ensures CompareAs(names[i], key, start) > 0 {
          CompareGrows(names[mid], names[i], key, start);
        }
        last := mid;
      }
      mid := (first + last) / 2;
    }
    if CompareAs(names[mid], key, start) == 0 {
      CompareIsMatch(names[mid], key, start);
      return mid;
    }
    forall i | 0 <= i < |names| ensures !Matches(names[i], key, start) {
      CompareIsMatch(names[i], key, start);
    }
    pos := NPOS;
  }

  /** Entries below a folder stand next to each other. */
  lemma Contiguous(names: seq<Key>, key: Key, i: nat, j: nat, k: nat)
    requires Sorted(names) && i <= j <= k < |names| && key <= names[i] && key <= names[k]
    ensures key <= names[j]
  {
    CompareIsMatch(names[i], key, true);
    CompareIsMatch(names[j], key, true);
    CompareIsMatch(names[k], key, true);
    CompareGrows(names[i], names[j], key, true);
    CompareGrows(names[j], names[k], key, true);
  }

  /** The range of all entries below a folder, given the position of one of them. */
  method GetRangeInSortVector(names: seq<Key>, key: Key, pos: int) returns (ok: bool, start: int, end: int)
    requires Sorted(names) && NPOS <= pos
    ensures ok <==> 0 <= pos < |names| && key <= names[pos]
    ensures ok ==> 0 <= start <= pos <= end < |names|
    ensures ok ==> forall i :: 0 <= i < |names| ==> (key <= names[i] <==> start <= i <= end)
  {
    start, end := NPOS, NPOS;
    if pos == NPOS || |names| == 0 || pos >= |names| {
      return false, start, end;
    }
    if CompareStart(names[pos], key) != 0 {
      CompareIsMatch(names[pos], key, true);
      return false, start, end;
    }
    CompareIsMatch(names[pos], key, true);
    start, end := 0, |names| - 1;
    if |key| == 0 {
      return true, start, end;
    }
    var i: int := pos;
    while i < |names|
      invariant pos <= i <= |names| && (i > pos ==> end == i - 1)
      invariant forall k :: pos <= k < i ==> key <= names[k]
    {
      CompareIsMatch(names[i], key, true);
      if CompareStart(names[i], key) != 0 {
        break;
      }
      end := i;
      i := i + 1;
    }
    var after := i;
    i := pos + 1;
    while i > 0
      invariant 0 <= i <= pos + 1 && (i <= pos ==> start == i)
      invariant forall k :: i <= k <= pos ==> key <= names[k]
    {
      i := i - 1;
      CompareIsMatch(names[i], key, true);
      if CompareStart(names[i], key) != 0 {
        break;
      }
      start := i;
    }
    forall k | 0 <= k < |names| && (k < start || k > end) ensures !(key <= names[k]) {
      if key <= names[k] {
        if k < start {
          Contiguous(names, key, k, start - 1, pos);
        } else {
          Contiguous(names, key, pos, end + 1, k);
        }
      }
    }
    ok := true;
  }
}
