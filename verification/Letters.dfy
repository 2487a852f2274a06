/** The two cases of the letters, given by their positions in the alphabet. */
module Letters {
  const LOWER_CASE: string := "abcdefghijklmnopqrstuvwxyz"
  const UPPER_CASE: string := "ABCDEFGHIJKLMNOPQRSTUVWXYZ"

  predicate IsPair(lower: char, upper: char) {
    exists k: nat :: k < 26 && LOWER_CASE[k] == lower && UPPER_CASE[k] == upper
  }

  /** The same character, or the two cases of one letter. */
  predicate SameLetter(c: char, d: char) { c == d || IsPair(c, d) || IsPair(d, c) }

  predicate SameButCase(s: string, t: string) {
    |s| == |t| && forall i :: 0 <= i < |s| ==> SameLetter(s[i], t[i])
  }

  lemma LowerAt(k: nat)
    requires k < 26
    ensures LOWER_CASE[k] as int == 'a' as int + k
  {
  }

  lemma UpperAt(k: nat)
    requires k < 26
    ensures UPPER_CASE[k] as int == 'A' as int + k
  {
  }

  lemma PairAt(lower: char, upper: char)
    requires 'A' <= upper <= 'Z' && lower as int == upper as int + 32
    ensures IsPair(lower, upper)
  {
    var k := upper as int - 'A' as int;
    LowerAt(k);
    UpperAt(k);
  }

  lemma PairIs(lower: char, upper: char)
    ensures IsPair(lower, upper) <==> 'A' <= upper <= 'Z' && lower as int == upper as int + 32
  {
    if k: nat :| k < 26 && LOWER_CASE[k] == lower && UPPER_CASE[k] == upper {
      LowerAt(k);
      UpperAt(k);
    }
    if 'A' <= upper <= 'Z' && lower as int == upper as int + 32 {
      PairAt(lower, upper);
    }
  }

  lemma SameLetterIs(c: char, d: char)
    ensures SameLetter(c, d) <==>
              c == d || ('A' <= d <= 'Z' && c as int == d as int + 32) || ('A' <= c <= 'Z' && d as int == c as int + 32)
  {
    PairIs(c, d);
    PairIs(d, c);
  }

  lemma SameButCaseRefl(s: string)
    ensures SameButCase(s, s)
  {
  }
}
