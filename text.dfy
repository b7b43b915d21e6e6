/**
 * Ordinal string tests used by the analyzer rules: `string.StartsWith`,
 * `string.EndsWith` and `string.Contains` on sequences of characters.
 */
module Text {
  /** `s` begins with `prefix`. */
  predicate StartsWith(s: string, prefix: string) {
    |prefix| <= |s| && s[..|prefix|] == prefix
  }

  /** `s` ends with `suffix`. */
  predicate EndsWith(s: string, suffix: string) {
    |suffix| <= |s| && s[|s| - |suffix|..] == suffix
  }

  /** `part` occurs in `s`, searched from the left one position at a time. */
  predicate Contains(s: string, part: string): (found: bool)
    ensures found ==> |part| <= |s|
    decreases |s|
  {
    StartsWith(s, part) || (|s| > 0 && Contains(s[1..], part))
  }

  /** `part` occurs in `s` starting at index `i`. */
  predicate OccursAt(s: string, part: string, i: int) {
    0 <= i && i + |part| <= |s| && s[i..i + |part|] == part
  }

  /** The left-to-right search finds `part` exactly when it occurs somewhere in `s`. */
  lemma {:induction false} ContainsIffOccurs(s: string, part: string)
    ensures Contains(s, part) <==> exists i :: OccursAt(s, part, i)
    decreases |s|
  {
    if StartsWith(s, part) {
      assert OccursAt(s, part, 0);
    } else if |s| == 0 {
      assert |part| > 0;
      assert forall i :: !OccursAt(s, part, i);
    } else {
      ContainsIffOccurs(s[1..], part);
      assert !OccursAt(s, part, 0);
      forall i | OccursAt(s[1..], part, i)
        ensures OccursAt(s, part, i + 1)
      {
        assert s[1..][i..i + |part|] == s[i + 1..i + 1 + |part|];
      }
      forall i | OccursAt(s, part, i)
        ensures OccursAt(s[1..], part, i - 1)
      {
        assert s[1..][i - 1..i - 1 + |part|] == s[i..i + |part|];
      }
    }
  }
}
