/** The preference resolver: the digits a person should avoid, looked up from
    the risky-digit tables by Moolank and Bhagyank, minus the person's own
    numbers; and the preferred roots, the person's own numbers. */
module Preferences {
  import opened Digits
  import opened Sets

  /** MOOLANK_RISKY_DIGITS: root -> three digits considered risky for it. */
  const MoolankRiskyDigits: map<int, set<char>> := map[
    1 := {'6', '7', '8'},
    2 := {'5', '8', '9'},
    3 := {'2', '4', '8'},
    4 := {'1', '6', '9'},
    5 := {'2', '4', '9'},
    6 := {'1', '3', '8'},
    7 := {'1', '5', '6'},
    8 := {'1', '2', '3'},
    9 := {'2', '4', '5'}
  ]

  /** BHAGYANK_RISKY_DIGITS is a copy of the Moolank table. */
  const BhagyankRiskyDigits: map<int, set<char>> := MoolankRiskyDigits

  /** table.get(key, set()). */
  function Get(table: map<int, set<char>>, key: int): set<char> {
    if key in table then table[key] else {}
  }

  /** The risky-digit table has an entry for each root 1..9; every entry holds
      three of the digits 1..9, never 0 and never the root's own digit. */
  lemma RiskyTableShape(key: int)
    ensures key in MoolankRiskyDigits <==> 1 <= key <= 9
    ensures |Get(MoolankRiskyDigits, key)| == if 1 <= key <= 9 then 3 else 0
    ensures forall d | d in Get(MoolankRiskyDigits, key) :: '1' <= d <= '9' && DigitValue(d) != key
  {
  }

  /** The union of the two lookups. */
  function RiskyUnion(moolank: int, bhagyank: int): (r: set<char>)
    ensures forall d | d in r :: '1' <= d <= '9'
  {
    RiskyTableShape(moolank);
    RiskyTableShape(bhagyank);
    Get(MoolankRiskyDigits, moolank) + Get(BhagyankRiskyDigits, bhagyank)
  }

  /** get_digits_to_avoid: the risky digits of Moolank and Bhagyank, except
      those whose value is Moolank, Bhagyank or the name number. */
  function GetDigitsToAvoid(moolank: int, bhagyank: int, nameNumber: int): (avoid: set<char>)
    ensures avoid <= RiskyUnion(moolank, bhagyank)
    ensures forall d | d in RiskyUnion(moolank, bhagyank) ::
              d in avoid || DigitValue(d) in {moolank, bhagyank, nameNumber}
    ensures forall x | x in {moolank, bhagyank, nameNumber} && 0 <= x <= 9 :: DigitChar(x) !in avoid
  {
    var risky := RiskyUnion(moolank, bhagyank);
    set d | d in risky && DigitValue(d) !in {moolank, bhagyank, nameNumber}
  }

  /** preferred_roots: the person's own numbers, duplicates collapsed. */
  function PreferredRoots(moolank: int, bhagyank: int, nameNumber: int): set<int> {
    {moolank, bhagyank, nameNumber}
  }

  /** A key outside the table adds nothing: only the other lookup remains. */
  lemma UnknownKeys(moolank: int, bhagyank: int, nameNumber: int)
    ensures moolank !in MoolankRiskyDigits ==> GetDigitsToAvoid(moolank, bhagyank, nameNumber) <= Get(BhagyankRiskyDigits, bhagyank)
    ensures bhagyank !in BhagyankRiskyDigits ==> GetDigitsToAvoid(moolank, bhagyank, nameNumber) <= Get(MoolankRiskyDigits, moolank)
  {
  }

  /** Every avoided digit is one of 1..9 (never 0), and at most six are avoided,
      so at least four digits (0 among them) always remain to draw from. */
  lemma AvoidShape(moolank: int, bhagyank: int, nameNumber: int)
    ensures forall d | d in GetDigitsToAvoid(moolank, bhagyank, nameNumber) :: '1' <= d <= '9'
    ensures |GetDigitsToAvoid(moolank, bhagyank, nameNumber)| <= 6
  {
    var a := Get(MoolankRiskyDigits, moolank);
    var b := Get(BhagyankRiskyDigits, bhagyank);
    var avoid := GetDigitsToAvoid(moolank, bhagyank, nameNumber);
    RiskyTableShape(moolank);
    RiskyTableShape(bhagyank);
    UnionSize(a, b);
    SubsetSize(avoid, a + b);
  }

}
