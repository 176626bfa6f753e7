/** The safety classifier is_safe_number: a fixed list of rules, each of which
    marks a number string unsafe. */
module Safety {

  /** RISK_PATTERNS, in the order of the source. */
  const RiskPatterns: seq<string> := [
    "13", "31", "14", "41", "16", "61", "18", "81", "19", "91",
    "22", "222", "26", "62", "28", "82", "29", "92",
    "35", "53", "44", "45", "54", "49", "94", "69", "96", "72", "27",
    "777", "888", "444"
  ]

  /** `p in s` on Python strings: p occurs in s as a contiguous substring. */
  predicate Contains(s: string, p: string) {
    p <= s || (s != [] && Contains(s[1..], p))
  }

  /** s.endswith(suffix). */
  predicate EndsWith(s: string, suffix: string) {
    |suffix| <= |s| && s[|s| - |suffix|..] == suffix
  }

  /** s.count(c) for a one-character c. */
  function Count(s: string, c: char): nat {
    if s == [] then 0 else Count(s[..|s| - 1], c) + (if s[|s| - 1] == c then 1 else 0)
  }

  /** is_safe_number, rule by rule; the source returns False at the first
      rule that fires and True when none does. */
  predicate IsSafeNumber(number: string) {
    !(exists i | 0 <= i < |RiskPatterns| :: Contains(number, RiskPatterns[i]))
    && !(EndsWith(number, "00") || EndsWith(number, "000"))
    && !(exists i | 0 <= i < |number| :: Count(number, number[i]) > 1)
    && !(Count(number, '7') >= 2 || EndsWith(number, "6"))
  }

  /** All characters of s are pairwise distinct. */
  predicate Distinct(s: string) {
    forall i, j | 0 <= i < j < |s| :: s[i] != s[j]
  }

  /** p occurs in s starting at position k. */
  predicate OccursAt(s: string, p: string, k: int) {
    0 <= k <= |s| - |p| && s[k..k + |p|] == p
  }

  /** `p in s` holds exactly when p starts at some position of s. */
  lemma {:induction false} ContainsAt(s: string, p: string)
    ensures Contains(s, p) <==> exists k :: OccursAt(s, p, k)
  {
    if p <= s {
      assert OccursAt(s, p, 0);
    }
    if s != [] {
      ContainsAt(s[1..], p);
      if exists k :: OccursAt(s, p, k) {
        var k :| OccursAt(s, p, k);
        if k > 0 {
          OccursDropFirst(s, p, k);
        }
      }
      if exists k :: OccursAt(s[1..], p, k) {
        var k :| OccursAt(s[1..], p, k);
        OccursAddFirst(s, p, k);
      }
    }
  }

  lemma OccursDropFirst(s: string, p: string, k: int)
    requires OccursAt(s, p, k) && k > 0
    ensures OccursAt(s[1..], p, k - 1)
  {
    assert s[1..][k - 1..k - 1 + |p|] == s[k..k + |p|];
  }

  lemma OccursAddFirst(s: string, p: string, k: int)
    requires s != [] && OccursAt(s[1..], p, k)
    ensures OccursAt(s, p, k + 1)
  {
    assert s[1..][k..k + |p|] == s[k + 1..k + 1 + |p|];
  }

  lemma {:induction false} CountPositive(s: string, i: int)
    requires 0 <= i < |s|
    ensures Count(s, s[i]) >= 1
  {
    if i < |s| - 1 {
      CountPositive(s[..|s| - 1], i);
    }
  }

  lemma {:induction false} CountZero(s: string, c: char)
    requires forall i | 0 <= i < |s| :: s[i] != c
    ensures Count(s, c) == 0
  {
    if s != [] {
      CountZero(s[..|s| - 1], c);
    }
  }

  /** A repeated character is counted at least twice. */
  lemma {:induction false} CountRepeat(s: string, i: int, j: int)
    requires 0 <= i < j < |s| && s[i] == s[j]
    ensures Count(s, s[i]) >= 2
  {
    if j < |s| - 1 {
      CountRepeat(s[..|s| - 1], i, j);
    } else {
      CountPositive(s[..|s| - 1], i);
    }
  }

  /** In a string of distinct characters every character is counted once. */
  lemma {:induction false} CountDistinct(s: string, i: int)
    requires Distinct(s) && 0 <= i < |s|
    ensures Count(s, s[i]) == 1
  {
    var init := s[..|s| - 1];
    if i < |s| - 1 {
      CountDistinct(init, i);
    } else {
      CountZero(init, s[i]);
    }
  }

  /** The source's rule `any(number.count(d) > 1 for d in set(number))` is
      exactly "some character repeats". */
  lemma RepeatRule(s: string)
    ensures (exists i | 0 <= i < |s| :: Count(s, s[i]) > 1) <==> !Distinct(s)
  {
    if Distinct(s) {
      forall i | 0 <= i < |s| ensures Count(s, s[i]) == 1 {
        CountDistinct(s, i);
      }
    } else {
      var i, j :| 0 <= i < j < |s| && s[i] == s[j];
      CountRepeat(s, i, j);
    }
  }

  /** Once characters are distinct, a suffix "000" or a second '7' cannot
      occur: those two rules never fire on their own. */
  lemma RedundantRules(s: string)
    requires Distinct(s)
    ensures !EndsWith(s, "000") && Count(s, '7') <= 1
  {
    if exists i | 0 <= i < |s| :: s[i] == '7' {
      var i :| 0 <= i < |s| && s[i] == '7';
      CountDistinct(s, i);
    } else {
      CountZero(s, '7');
    }
  }

  /** Nor can the risk patterns made of one repeated digit ("22", "222", "44",
      "444", "777", "888") occur in a string of distinct characters. */
  lemma RepeatedPatternsUnreachable(s: string, p: string)
    requires Distinct(s)
    requires p in ["22", "222", "44", "444", "777", "888"]
    ensures !Contains(s, p)
  {
    ContainsAt(s, p);
    forall k ensures !OccursAt(s, p, k) {
      if 0 <= k < |s| - 1 {
        assert s[k] != s[k + 1];
      }
    }
  }

  /** "1123" repeats a digit, "1300" contains "13", "100" ends in "00" and
      "2056" ends in '6'. */
  lemma SafetyExamples()
    ensures !IsSafeNumber("1123")
    ensures !IsSafeNumber("1300")
    ensures !IsSafeNumber("100")
    ensures !IsSafeNumber("2056")
  {
    RepeatRule("1123");
    assert "1123"[0] == "1123"[1];
    assert Contains("1300", RiskPatterns[0]);
  }

  /** A string of distinct characters drawn from a set is no longer than the
      set is large. */
  lemma {:induction false} DistinctBound(s: string, chars: set<char>)
    requires Distinct(s)
    requires forall i | 0 <= i < |s| :: s[i] in chars
    ensures |s| <= |chars|
  {
    if s != [] {
      var init, x := s[..|s| - 1], s[|s| - 1];
      assert forall i | 0 <= i < |init| :: init[i] in chars - {x};
      DistinctBound(init, chars - {x});
    }
  }

  /** A safe number written in decimal digits has at most ten of them. */
  lemma SafeDigitStringLength(s: string)
    requires IsSafeNumber(s)
    requires forall i | 0 <= i < |s| :: '0' <= s[i] <= '9'
    ensures |s| <= 10
  {
    SafeConsequences(s);
    var digits := {'0', '1', '2', '3', '4', '5', '6', '7', '8', '9'};
    assert forall i | 0 <= i < |s| :: s[i] in digits;
    DistinctBound(s, digits);
  }

  /** is_safe_number accepts exactly the strings with pairwise distinct
      characters that contain no risk pattern and end neither in "00" nor in
      '6'; the "000" and double-'7' rules add nothing. */
  lemma SafeCharacterization(s: string)
    ensures IsSafeNumber(s) <==>
      (forall i | 0 <= i < |RiskPatterns| :: !Contains(s, RiskPatterns[i]))
      && !EndsWith(s, "00") && !EndsWith(s, "6") && Distinct(s)
  {
    RepeatRule(s);
    if Distinct(s) {
      RedundantRules(s);
    }
  }

  /** Every safe string has pairwise distinct characters, no risk pattern,
      no "00" or '6' at the end, and at most one '7'. */
  lemma SafeConsequences(s: string)
    requires IsSafeNumber(s)
    ensures Distinct(s)
    ensures forall p | p in RiskPatterns :: !Contains(s, p)
    ensures !EndsWith(s, "00") && !EndsWith(s, "6")
    ensures Count(s, '7') <= 1
  {
    SafeCharacterization(s);
    RedundantRules(s);
    forall p | p in RiskPatterns ensures !Contains(s, p) {
      var i :| 0 <= i < |RiskPatterns| && RiskPatterns[i] == p;
    }
  }

}
