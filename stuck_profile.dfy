/** A profile for which the recommendation flow cannot finish: the name
    "Asha" born on 01/01/2001. Four-digit candidates are drawn from 0, 1, 3
    and 5 only, all with root 9, which is not preferred, so the source's
    sampling loop never ends; and five distinct digits cannot be drawn from
    four, so the five-digit call would raise. */
module StuckProfile {
  import opened Digits
  import opened Chaldean
  import opened Birth
  import opened Preferences
  import opened Generator
  import opened Safety

  const AshaAvoid: set<char> := {'2', '4', '6', '7', '8', '9'}

  /** Moolank 1 and Bhagyank 5 for 01/01/2001. */
  lemma AshaBirthNumbers()
    ensures Moolank(1) == 1
    ensures Root(DigitsOnly(DateString(1, 1, 2001))) == 5
  {
    DateDigits(1, 1, 2001);
    assert FixedWidth(1, 2) == "01";
    assert FixedWidth(2001, 4) == "2001";
    DigitSumOfFour("2001");
    DigitSumOfTwo("01");
    DigitSumAppend("01", "01");
    DigitSumAppend("01" + "01", "2001");
  }

  /** Name number 1 for "Asha": A, S, H, A are worth 1, 3, 5, 1. */
  lemma AshaNameNumber()
    ensures Fold(NameTotal("Asha")) == 1
  {
    var total := NameTotal("Asha");
    assert UpperString("Asha") == "ASHA";
    assert LetterSum("A") == 1 by {
      assert "A"[..0] == [];
    }
    assert LetterSum("AS") == 4 by {
      assert "AS"[..1] == "A";
    }
    assert LetterSum("ASH") == 9 by {
      assert "ASH"[..2] == "AS";
    }
    assert LetterSum("ASHA") == 10 by {
      assert "ASHA"[..3] == "ASH";
    }
    assert total == 10;
    FoldIsDigitalRoot(total);
  }

  /** The digits avoided for Moolank 1, Bhagyank 5 and name number 1. */
  lemma AshaAvoidSet()
    ensures GetDigitsToAvoid(1, 5, 1) == AshaAvoid
  {
  }

  /** The digits left to draw from: 0, 1, 3 and 5. */
  lemma AshaPopulation()
    ensures forall c :: c in Population(AshaAvoid) <==> c in "0135"
    ensures |Population(AshaAvoid)| == 4
  {
    var p := Population(AshaAvoid);
    PopulationSize(AshaAvoid);
    assert |AshaAvoid| == 6;
    DistinctBound(p, {'0', '1', '3', '5'});
  }

  lemma DigitSumOfTwo(c: string)
    requires |c| == 2 && IsDigitString(c)
    ensures DigitSum(c) == DigitValue(c[0]) + DigitValue(c[1])
  {
    var c1 := c[..1];
    assert c1[..0] == [];
    assert DigitSum(c1) == DigitValue(c[0]);
  }

  lemma DigitSumOfFour(c: string)
    requires |c| == 4 && IsDigitString(c)
    ensures DigitSum(c) == DigitValue(c[0]) + DigitValue(c[1]) + DigitValue(c[2]) + DigitValue(c[3])
  {
    var c3, c2, c1 := c[..3], c[..2], c[..1];
    assert c3[..2] == c2 && c2[..1] == c1 && c1[..0] == [];
    assert DigitSum(c1) == DigitValue(c[0]);
    assert DigitSum(c2) == DigitSum(c1) + DigitValue(c[1]);
    assert DigitSum(c3) == DigitSum(c2) + DigitValue(c[2]);
  }

  /** Every four-digit draw from "0135" uses each of 0, 1, 3, 5 once, so its
      digit sum is 9 and its root is 9. */
  lemma AshaFourDigitDrawsRejected(c: string)
    requires IsSample(c, Population(AshaAvoid), 4)
    ensures IsDigitString(c) && Root(c) == 9
    ensures !Accepted(c, {1, 5})
  {
    AshaPopulation();
    assert forall i | 0 <= i < 4 :: c[i] in "0135";
    DigitSumOfFour(c);
  }

  /** With the draws bounded, no draw is ever accepted, so GenerateCombinations
      for this profile and any positive limit reports DrawsExhausted. */
  lemma {:induction false} AshaAcceptsNothing(draws: seq<string>)
    requires forall i | 0 <= i < |draws| :: IsSample(draws[i], Population(AshaAvoid), 4)
    ensures AcceptedDraws(draws, {1, 5}) == {}
  {
    if draws != [] {
      AshaFourDigitDrawsRejected(draws[|draws| - 1]);
      AshaAcceptsNothing(draws[..|draws| - 1]);
    }
  }

  /** Only four digits are available, fewer than the five the second call asks
      for. */
  lemma AshaFiveDigitInfeasible()
    ensures |Population(AshaAvoid)| == 4 < 5
  {
    AshaPopulation();
  }

}
