/** Digit-root arithmetic: the digit sum of a string of decimal digits and the
    repeated "sum the digits of str(total) while total > 9" fold that
    sum_to_root, chaldean_number and the Bhagyank computation share. */
module Digits {

  predicate IsDigit(c: char) {
    '0' <= c <= '9'
  }

  predicate IsDigitString(s: string) {
    forall i | 0 <= i < |s| :: IsDigit(s[i])
  }

  /** int(d) for a one-character decimal string. */
  function DigitValue(c: char): (v: nat)
    requires IsDigit(c)
    ensures v <= 9
  {
    c as int - '0' as int
  }

  /** The character whose int() is v. */
  function DigitChar(v: nat): (c: char)
    requires v <= 9
    ensures IsDigit(c) && DigitValue(c) == v
  {
    ('0' as int + v) as char
  }

  lemma DigitCharValue(c: char)
    requires IsDigit(c)
    ensures DigitChar(DigitValue(c)) == c
  {
  }

  /** sum(int(d) for d in s). */
  function DigitSum(s: string): nat
    requires IsDigitString(s)
  {
    if s == [] then 0 else DigitSum(s[..|s| - 1]) + DigitValue(s[|s| - 1])
  }

  /** int(s) for a string of decimal digits (the empty string reads as 0). */
  function ParseNat(s: string): nat
    requires IsDigitString(s)
  {
    if s == [] then 0 else 10 * ParseNat(s[..|s| - 1]) + DigitValue(s[|s| - 1])
  }

  /** str(n) for a non-negative integer: its decimal digits without leading zeros. */
  function NatToString(n: nat): (s: string)
    ensures IsDigitString(s) && |s| >= 1
    ensures s[0] != '0' || n == 0
    ensures |s| == 1 <==> n <= 9
  {
    if n <= 9 then [DigitChar(n)] else NatToString(n / 10) + [DigitChar(n % 10)]
  }

  /** int(str(n)) == n. */
  lemma {:induction false} ParseNatToString(n: nat)
    ensures ParseNat(NatToString(n)) == n
  {
    if n > 9 {
      var s := NatToString(n);
      assert s[..|s| - 1] == NatToString(n / 10);
      ParseNatToString(n / 10);
    }
  }

  lemma {:induction false} DigitSumAppend(a: string, b: string)
    requires IsDigitString(a) && IsDigitString(b)
    ensures IsDigitString(a + b) && DigitSum(a + b) == DigitSum(a) + DigitSum(b)
    decreases |b|
  {
    if b == [] {
      assert a + b == a;
    } else {
      var c := a + b;
      assert c[..|c| - 1] == a + b[..|b| - 1];
      DigitSumAppend(a, b[..|b| - 1]);
    }
  }

  /** Appending the digit r to q (10 * q + r) and adding r to a number
      congruent to q give the same residue modulo 9. */
  lemma DigitStepResidue(a: nat, q: nat, r: nat)
    requires a % 9 == q % 9
    ensures (a + r) % 9 == (10 * q + r) % 9
  {
    var m := q + q / 9 - a / 9;
    assert 10 * q + r == (a + r) + 9 * m;
    AddNines(a + r, m);
  }

  lemma AddNines(x: int, m: int)
    ensures (x + 9 * m) % 9 == x % 9
  {
    assert x + 9 * m == 9 * (x / 9 + m) + x % 9;
  }

  /** Two values in 1..9 with the same residue modulo 9 are equal. */
  lemma SameResidue(a: int, b: int)
    requires 1 <= a <= 9 && 1 <= b <= 9 && a % 9 == b % 9
    ensures a == b
  {
  }

  /** One fold step, sum(int(d) for d in str(n)): it keeps n modulo 9, keeps
      zero-ness, and strictly shrinks every n above 9 (so the fold ends). */
  lemma {:induction false} FoldStepFacts(n: nat)
    ensures DigitSum(NatToString(n)) % 9 == n % 9
    ensures DigitSum(NatToString(n)) == 0 <==> n == 0
    ensures DigitSum(NatToString(n)) <= n
    ensures n > 9 ==> DigitSum(NatToString(n)) < n
  {
    var s := NatToString(n);
    if n <= 9 {
      assert s[..0] == [];
    } else {
      var q, r := n / 10, n % 10;
      assert s[..|s| - 1] == NatToString(q);
      assert DigitSum(s) == DigitSum(NatToString(q)) + r;
      FoldStepFacts(q);
      assert n == 10 * q + r;
      DigitStepResidue(DigitSum(NatToString(q)), q, r);
    }
  }

  /** The fold of sum_to_root: while total > 9, replace total by the sum of the
      digits of str(total). The result is the decimal digital root. */
  function Fold(total: nat): (root: nat)
    ensures root <= 9
    ensures root % 9 == total % 9
    ensures root == 0 <==> total == 0
    decreases total
  {
    if total <= 9 then total
    else
      FoldStepFacts(total);
      Fold(DigitSum(NatToString(total)))
  }

  /** The fold is the decimal digital root: 0 for 0, otherwise the value in
      1..9 congruent to the total modulo 9. */
  lemma FoldIsDigitalRoot(total: nat)
    ensures Fold(total) == if total == 0 then 0 else 1 + (total - 1) % 9
  {
    if total > 0 {
      var c, m := 1 + (total - 1) % 9, (total - 1) / 9;
      assert total == c + 9 * m;
      AddNines(c, m);
      SameResidue(Fold(total), c);
    }
  }

  /** sum_to_root(s) as a value: the fold of the digit sum. */
  function Root(s: string): nat
    requires IsDigitString(s)
  {
    Fold(DigitSum(s))
  }

  /** The `while total > 9: total = sum(int(d) for d in str(total))` loop. */
  method ReduceTotal(total: nat) returns (root: nat)
    ensures root == Fold(total)
    ensures root <= 9 && root % 9 == total % 9 && (root == 0 <==> total == 0)
  {
    root := total;
    while root > 9
      invariant Fold(root) == Fold(total)
      decreases root
    {
      FoldStepFacts(root);
      root := DigitSum(NatToString(root));
    }
  }

  predicate AllZeros(s: string) {
    forall i | 0 <= i < |s| :: s[i] == '0'
  }

  lemma {:induction false} DigitSumZero(s: string)
    requires IsDigitString(s)
    ensures DigitSum(s) == 0 <==> AllZeros(s)
  {
    if s != [] {
      DigitSumZero(s[..|s| - 1]);
    }
  }

  /** sum_to_root: the digit sum of the string, folded to one digit. It is 0
      exactly for the empty string and for strings of zeros, and otherwise
      congruent to the digit sum modulo 9. */
  method SumToRoot(s: string) returns (root: nat)
    requires IsDigitString(s)
    ensures root == Root(s)
    ensures root <= 9
    ensures root % 9 == DigitSum(s) % 9
    ensures root == 0 <==> AllZeros(s)
  {
    var total := DigitSum(s);
    root := ReduceTotal(total);
    DigitSumZero(s);
  }

  /** sum_to_root of one digit is that digit. */
  lemma RootOfDigit(d: char)
    requires IsDigit(d)
    ensures Root([d]) == DigitValue(d)
  {
    assert [d][..0] == [];
    assert DigitSum([d]) == DigitValue(d);
  }

  /** sum_to_root(str(sum_to_root(s))) == sum_to_root(s). */
  lemma RootIdempotent(s: string)
    requires IsDigitString(s)
    ensures Root(NatToString(Root(s))) == Root(s)
  {
    var r := Root(s);
    RootOfDigit(DigitChar(r));
  }

}
