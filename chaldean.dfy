/** The name number: every letter of the upper-cased name is looked up in the
    Chaldean letter table (characters outside it count 0), and the total is
    folded to one digit. */
module Chaldean {
  import opened Digits

  /** CHALDEAN_MAPPING: digit -> the upper-case letters worth that digit. */
  const ChaldeanMapping: map<nat, string> := map[
    1 := "AIJQY",
    2 := "BKR",
    3 := "CGLS",
    4 := "DMT",
    5 := "EHNX",
    6 := "UVW",
    7 := "OZ",
    8 := "FP"
  ]

  /** letter_to_num.get(c, 0): the inverse of ChaldeanMapping, 0 for keys it
      does not have (lower-case letters among them). */
  function LetterToNum(c: char): (n: nat)
    ensures n != 0 ==> n in ChaldeanMapping && c in ChaldeanMapping[n]
    ensures n == 0 <==> forall k | k in ChaldeanMapping :: c !in ChaldeanMapping[k]
  {
    match c
    case 'A' | 'I' | 'J' | 'Q' | 'Y' => 1
    case 'B' | 'K' | 'R' => 2
    case 'C' | 'G' | 'L' | 'S' => 3
    case 'D' | 'M' | 'T' => 4
    case 'E' | 'H' | 'N' | 'X' => 5
    case 'U' | 'V' | 'W' => 6
    case 'O' | 'Z' => 7
    case 'F' | 'P' => 8
    case _ => 0
  }

  /** str.upper() on one character, for the ASCII letters. */
  function Upper(c: char): char {
    if 'a' <= c <= 'z' then (c as int - 32) as char else c
  }

  /** str.lower() on one character, for the ASCII letters. */
  function Lower(c: char): char {
    if 'A' <= c <= 'Z' then (c as int + 32) as char else c
  }

  function UpperString(s: string): (u: string)
    ensures |u| == |s| && forall i | 0 <= i < |s| :: u[i] == Upper(s[i])
  {
    seq(|s|, i requires 0 <= i < |s| => Upper(s[i]))
  }

  /** sum(letter_to_num.get(c, 0) for c in s). */
  function LetterSum(s: string): nat {
    if s == [] then 0 else LetterSum(s[..|s| - 1]) + LetterToNum(s[|s| - 1])
  }

  /** The total chaldean_number folds: the letter sum of name.upper(). */
  function NameTotal(name: string): nat {
    LetterSum(UpperString(name))
  }

  /** Whether some character of the name, upper-cased, is in the letter table. */
  predicate HasTableLetter(name: string) {
    exists i | 0 <= i < |name| :: LetterToNum(Upper(name[i])) != 0
  }

  /** The table covers exactly the 26 ASCII letters of either case, each worth
      1..8; no letter is worth 9. */
  lemma LetterValues(c: char)
    ensures 1 <= LetterToNum(Upper(c)) <= 8 <==> ('A' <= c <= 'Z' || 'a' <= c <= 'z')
    ensures LetterToNum(Upper(c)) <= 8
  {
  }

  lemma {:induction false} LetterSumAppend(a: string, b: string)
    ensures LetterSum(a + b) == LetterSum(a) + LetterSum(b)
    decreases |b|
  {
    if b == [] {
      assert a + b == a;
    } else {
      var c := a + b;
      assert c[..|c| - 1] == a + b[..|b| - 1];
      assert LetterSum(c) == LetterSum(c[..|c| - 1]) + LetterToNum(c[|c| - 1]);
      LetterSumAppend(a, b[..|b| - 1]);
    }
  }

  lemma {:induction false} NameTotalZero(name: string)
    ensures NameTotal(name) == 0 <==> !HasTableLetter(name)
  {
    if name != [] {
      var init := name[..|name| - 1];
      assert UpperString(name)[..|name| - 1] == UpperString(init);
      assert NameTotal(name) == NameTotal(init) + LetterToNum(Upper(name[|name| - 1]));
      NameTotalZero(init);
      if HasTableLetter(name) && LetterToNum(Upper(name[|name| - 1])) == 0 {
        var i :| 0 <= i < |name| && LetterToNum(Upper(name[i])) != 0;
        assert init[i] == name[i];
      }
    }
  }

  /** chaldean_number: the letter total of name.upper(), folded to one digit.
      It is 0 exactly when no character of the name is a table letter. */
  method ChaldeanNumber(name: string) returns (n: nat)
    ensures n == Fold(NameTotal(name))
    ensures n <= 9
    ensures n % 9 == NameTotal(name) % 9
    ensures n == 0 <==> !HasTableLetter(name)
  {
    var upper := UpperString(name);
    var total := LetterSum(upper);
    n := ReduceTotal(total);
    NameTotalZero(name);
  }

  /** Names that agree up to letter case have the same total, so the same name
      number. */
  lemma CaseInsensitive(a: string, b: string)
    requires |a| == |b|
    requires forall i | 0 <= i < |a| :: Upper(a[i]) == Upper(b[i])
    ensures NameTotal(a) == NameTotal(b)
  {
    assert UpperString(a) == UpperString(b);
  }

  /** Lower-casing a name does not change its total. */
  lemma LowerCaseInsensitive(name: string)
    ensures NameTotal(seq(|name|, i requires 0 <= i < |name| => Lower(name[i]))) == NameTotal(name)
  {
    var lowered := seq(|name|, i requires 0 <= i < |name| => Lower(name[i]));
    CaseInsensitive(lowered, name);
  }

  /** Inserting a character outside the table anywhere in the name does not
      change its total. */
  lemma {:induction false} NonLetterIgnored(a: string, c: char, b: string)
    requires LetterToNum(Upper(c)) == 0
    ensures NameTotal(a + [c] + b) == NameTotal(a + b)
  {
    assert UpperString(a + [c] + b) == UpperString(a) + [Upper(c)] + UpperString(b);
    assert UpperString(a + b) == UpperString(a) + UpperString(b);
    LetterSumAppend(UpperString(a) + [Upper(c)], UpperString(b));
    LetterSumAppend(UpperString(a), [Upper(c)]);
    LetterSumAppend(UpperString(a), UpperString(b));
    assert [Upper(c)][..0] == [];
  }

  /** A non-empty name made only of ASCII letters has a name number in 1..9. */
  lemma AlphabeticNameNumber(name: string)
    requires |name| > 0
    requires forall i | 0 <= i < |name| :: 'A' <= name[i] <= 'Z' || 'a' <= name[i] <= 'z'
    ensures 1 <= Fold(NameTotal(name)) <= 9
  {
    LetterValues(name[0]);
    NameTotalZero(name);
  }

}
