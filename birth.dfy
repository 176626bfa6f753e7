/** The birth attributes: Moolank from the day of the month, Bhagyank from
    every digit of the DD/MM/YYYY date string. */
module Birth {
  import opened Digits

  /** A calendar date as the date picker delivers it (years from 1900 on). */
  predicate ValidDate(day: int, month: int, year: int) {
    1 <= day <= 31 && 1 <= month <= 12 && 1900 <= year <= 9999
  }

  function Pow10(w: nat): (p: nat)
    ensures p >= 1
  {
    if w == 0 then 1 else 10 * Pow10(w - 1)
  }

  lemma Pow10Values()
    ensures Pow10(2) == 100 && Pow10(4) == 10000
  {
    assert Pow10(1) == 10;
    assert Pow10(3) == 1000;
  }

  /** The last w decimal digits of n, zero-padded (strftime's %d, %m, %Y). */
  function FixedWidth(n: nat, w: nat): (s: string)
    ensures |s| == w && IsDigitString(s)
  {
    if w == 0 then [] else FixedWidth(n / 10, w - 1) + [DigitChar(n % 10)]
  }

  /** Reading the padded string back gives n whenever n fits in w digits. */
  lemma {:induction false} FixedWidthRoundTrip(n: nat, w: nat)
    requires n < Pow10(w)
    ensures ParseNat(FixedWidth(n, w)) == n
  {
    if w > 0 {
      var s := FixedWidth(n, w);
      assert s[..|s| - 1] == FixedWidth(n / 10, w - 1);
      FixedWidthRoundTrip(n / 10, w - 1);
    }
  }

  /** Zero padding does not change the digit sum modulo 9, nor whether it is 0. */
  lemma {:induction false} FixedWidthDigitSum(n: nat, w: nat)
    requires n < Pow10(w)
    ensures DigitSum(FixedWidth(n, w)) % 9 == n % 9
    ensures DigitSum(FixedWidth(n, w)) == 0 <==> n == 0
  {
    if w > 0 {
      var s := FixedWidth(n, w);
      var q, r := n / 10, n % 10;
      var init := FixedWidth(q, w - 1);
      assert s[..|s| - 1] == init;
      assert DigitSum(s) == DigitSum(init) + r;
      FixedWidthDigitSum(q, w - 1);
      DigitStepResidue(DigitSum(init), q, r);
    }
  }

  /** dob.strftime("%d/%m/%Y"). */
  function DateString(day: int, month: int, year: int): (s: string)
    requires ValidDate(day, month, year)
    ensures |s| == 10 && s[2] == '/' && s[5] == '/'
  {
    FixedWidth(day, 2) + "/" + FixedWidth(month, 2) + "/" + FixedWidth(year, 4)
  }

  /** int(dob_str.split("/")[0]): the first field of the date string reads
      back as the day, so the model takes the day as an integer directly. */
  lemma DayFieldReadsBack(day: int, month: int, year: int)
    requires ValidDate(day, month, year)
    ensures DateString(day, month, year)[..2] == FixedWidth(day, 2)
    ensures ParseNat(FixedWidth(day, 2)) == day
  {
    Pow10Values();
    FixedWidthRoundTrip(day, 2);
  }

  /** [d for d in s if d.isdigit()]. */
  function DigitsOnly(s: string): (d: string)
    ensures IsDigitString(d)
  {
    if s == [] then []
    else if IsDigit(s[|s| - 1]) then DigitsOnly(s[..|s| - 1]) + [s[|s| - 1]]
    else DigitsOnly(s[..|s| - 1])
  }

  lemma {:induction false} DigitsOnlyAppend(a: string, b: string)
    ensures DigitsOnly(a + b) == DigitsOnly(a) + DigitsOnly(b)
    decreases |b|
  {
    if b == [] {
      assert a + b == a;
    } else {
      var c := a + b;
      assert c[..|c| - 1] == a + b[..|b| - 1];
      DigitsOnlyAppend(a, b[..|b| - 1]);
    }
  }

  lemma {:induction false} DigitsOnlyOfDigits(s: string)
    requires IsDigitString(s)
    ensures DigitsOnly(s) == s
  {
    if s != [] {
      DigitsOnlyOfDigits(s[..|s| - 1]);
    }
  }

  /** Moolank: `day % 9 or 9`. It is the value in 1..9 congruent to the day
      modulo 9 (Python's % and Dafny's agree for the divisor 9). */
  function Moolank(day: int): (m: int)
    ensures 1 <= m <= 9
    ensures m % 9 == day % 9
  {
    if day % 9 != 0 then day % 9 else 9
  }

  /** For every day of the month, `day % 9 or 9` is the digit root of the
      two-digit day string, so the shortcut agrees with the fold. */
  lemma MoolankIsDayRoot(day: int)
    requires 1 <= day <= 31
    ensures Moolank(day) == Root(FixedWidth(day, 2))
  {
    Pow10Values();
    FixedWidthDigitSum(day, 2);
    var t := DigitSum(FixedWidth(day, 2));
    SameResidue(Moolank(day), Fold(t));
  }

  /** Dropping the two slashes leaves the three padded fields, side by side. */
  lemma DateDigits(day: int, month: int, year: int)
    requires ValidDate(day, month, year)
    ensures DigitsOnly(DateString(day, month, year))
            == FixedWidth(day, 2) + FixedWidth(month, 2) + FixedWidth(year, 4)
  {
    var d, m, y := FixedWidth(day, 2), FixedWidth(month, 2), FixedWidth(year, 4);
    assert DateString(day, month, year) == d + "/" + m + "/" + y;
    DigitsOnlyAppend(d + "/" + m + "/", y);
    DigitsOnlyAppend(d + "/" + m, "/");
    DigitsOnlyAppend(d + "/", m);
    DigitsOnlyAppend(d, "/");
    DigitsOnlyOfDigits(d);
    DigitsOnlyOfDigits(m);
    DigitsOnlyOfDigits(y);
    assert DigitsOnly("/") == [];
  }

  /** Congruence modulo 9 is kept by addition. */
  lemma ModNineAdd(a: int, b: int, x: int, y: int)
    requires a % 9 == x % 9 && b % 9 == y % 9
    ensures (a + b) % 9 == (x + y) % 9
  {
    var ka, kb, kx, ky := a / 9, b / 9, x / 9, y / 9;
    assert a + b == 9 * (ka + kb) + (a % 9 + b % 9);
    assert x + y == 9 * (kx + ky) + (x % 9 + y % 9);
  }

  /** Digit sums of three fields add up, and so do their residues. */
  lemma {:induction false} FieldsDigitSum(d: string, m: string, y: string, day: int, month: int, year: int)
    requires IsDigitString(d) && IsDigitString(m) && IsDigitString(y)
    requires DigitSum(d) % 9 == day % 9 && DigitSum(m) % 9 == month % 9 && DigitSum(y) % 9 == year % 9
    ensures IsDigitString(d + m + y)
    ensures DigitSum(d + m + y) == DigitSum(d) + DigitSum(m) + DigitSum(y)
    ensures DigitSum(d + m + y) % 9 == (day + month + year) % 9
  {
    DigitSumAppend(d, m);
    DigitSumAppend(d + m, y);
    ModNineAdd(DigitSum(d), DigitSum(m), day, month);
    ModNineAdd(DigitSum(d) + DigitSum(m), DigitSum(y), day + month, year);
  }

  /** The digit sum of the date string is day + month + year modulo 9. */
  lemma DateDigitSum(day: int, month: int, year: int)
    requires ValidDate(day, month, year)
    ensures DigitSum(DigitsOnly(DateString(day, month, year))) % 9 == (day + month + year) % 9
    ensures DigitSum(DigitsOnly(DateString(day, month, year))) > 0
  {
    var d, m, y := FixedWidth(day, 2), FixedWidth(month, 2), FixedWidth(year, 4);
    DateDigits(day, month, year);
    Pow10Values();
    FixedWidthDigitSum(day, 2);
    FixedWidthDigitSum(month, 2);
    FixedWidthDigitSum(year, 4);
    FieldsDigitSum(d, m, y, day, month, year);
  }

  /** Bhagyank: the digits of the DD/MM/YYYY string summed and folded. It lies
      in 1..9 and is congruent to day + month + year modulo 9. */
  method Bhagyank(day: int, month: int, year: int) returns (b: nat)
    requires ValidDate(day, month, year)
    ensures b == Root(DigitsOnly(DateString(day, month, year)))
    ensures 1 <= b <= 9
    ensures b % 9 == (day + month + year) % 9
  {
    var dob := DateString(day, month, year);
    var digits := DigitsOnly(dob);
    b := ReduceTotal(DigitSum(digits));
    DateDigitSum(day, month, year);
  }

}
