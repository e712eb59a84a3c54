/**
 * `_boolish`, the reading of an optional query parameter such as `save` as a
 * flag. Both backends define it identically.
 */
module QueryFlags {
  import opened Wrappers

  /** The lowercase spellings that mean "yes". */
  const TrueWords: set<string> := {"1", "true", "yes", "y", "t"}

  /** Lowercase of one character; only ASCII letters change. */
  function LowerChar(c: char): char
  {
    if 'A' <= c <= 'Z' then (c as int - 'A' as int + 'a' as int) as char else c
  }

  /**
   * `str.lower`: no upper-case letter is left, and every character either
   * stays as it is or is an upper-case letter replaced by its lower-case
   * partner, in place.
   */
  function Lower(s: string): (r: string)
    ensures |r| == |s|
    ensures forall i :: 0 <= i < |r| ==> !('A' <= r[i] <= 'Z')
    ensures forall i :: 0 <= i < |s| ==>
              || r[i] == s[i]
              || ('A' <= s[i] <= 'Z' && r[i] as int == s[i] as int + 32)
  {
    seq(|s|, i requires 0 <= i < |s| => LowerChar(s[i]))
  }

  /** Lowercasing text that is already lower case changes nothing. */
  lemma LowerIdempotent(s: string)
    ensures Lower(Lower(s)) == Lower(s)
  {
    var t := Lower(s);
    assert forall i :: 0 <= i < |t| ==> Lower(t)[i] == t[i];
  }

  /**
   * `_boolish`: an absent parameter is false; otherwise its lowercase must be
   * a yes-word, so a true flag is one to four characters long.
   */
  predicate Boolish(x: Option<string>)
    ensures x.None? ==> !Boolish(x)
    ensures Boolish(x) ==> 1 <= |x.value| <= 4
  {
    x.Some? && Lower(x.value) in TrueWords
  }

  /** Lowercasing a parameter first does not change how it reads as a flag. */
  lemma BoolishIgnoresCase(s: string)
    ensures Boolish(Some(s)) <==> Boolish(Some(Lower(s)))
  {
    LowerIdempotent(s);
  }

  /** `a` and `b` are the same text apart from letter case. */
  predicate SameIgnoringCase(a: string, b: string)
  {
    |a| == |b| && forall i :: 0 <= i < |a| ==> LowerChar(a[i]) == LowerChar(b[i])
  }

  /**
   * A present parameter is a true flag exactly when it spells one of the
   * yes-words in any mix of upper and lower case.
   */
  lemma BoolishIffSpelledYes(s: string)
    ensures Boolish(Some(s)) <==> exists w :: w in TrueWords && SameIgnoringCase(s, w)
  {
    forall w | w in TrueWords
      ensures Lower(s) == w <==> SameIgnoringCase(s, w)
    {
      assert forall i :: 0 <= i < |w| ==> LowerChar(w[i]) == w[i];
      if SameIgnoringCase(s, w) {
        assert forall i :: 0 <= i < |w| ==> Lower(s)[i] == w[i];
      }
    }
  }

  /** The cases the query strings of the backends use, and two that are not flags. */
  lemma BoolishExamples()
    ensures !Boolish(None)
    ensures Boolish(Some("1")) && Boolish(Some("TRUE")) && Boolish(Some("Yes"))
    ensures !Boolish(Some("on")) && !Boolish(Some("0")) && !Boolish(Some(""))
  {
    assert Lower("TRUE") == "true";
    assert Lower("Yes") == "yes";
    assert Lower("1") == "1";
    assert Lower("on") == "on" && Lower("0") == "0" && Lower("") == "";
  }
}
