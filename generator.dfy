/** The candidate generator generate_combinations: rejection sampling of
    digit strings until `limit` distinct accepted ones are collected, returned
    sorted. The random draws are a parameter; running out of them is the
    model's explicit bound on the source's unbounded loop. */
module Generator {
  import opened Results
  import opened Digits
  import opened Safety
  import opened Ordering
  import opened Sets

  datatype GenerateError =
    | SampleLargerThanPopulation  // random.sample raises ValueError
    | DrawsExhausted              // the source would keep drawing forever

  /** [d for d in s if d not in avoid]. */
  function Without(s: string, avoid: set<char>): (r: string)
    ensures forall c :: c in r <==> c in s && c !in avoid
    ensures Distinct(s) ==> Distinct(r)
  {
    if s == [] then []
    else if s[|s| - 1] in avoid then Without(s[..|s| - 1], avoid)
    else
      var init := Without(s[..|s| - 1], avoid);
      assert Distinct(s) ==> s[|s| - 1] !in s[..|s| - 1];
      init + [s[|s| - 1]]
  }

  /** The digits random.sample draws from: '0123456789' minus the avoided ones. */
  function Population(avoidDigits: set<char>): (p: string)
    ensures IsDigitString(p) && Distinct(p)
    ensures forall c :: c in p <==> IsDigit(c) && c !in avoidDigits
  {
    var alphabet := "0123456789";
    assert forall c :: c in alphabet <==> IsDigit(c);
    Without(alphabet, avoidDigits)
  }

  lemma {:induction false} WithoutIgnoresAbsent(s: string, avoid: set<char>, x: char)
    requires x !in s
    ensures Without(s, avoid) == Without(s, avoid - {x})
  {
    if s != [] {
      WithoutIgnoresAbsent(s[..|s| - 1], avoid, x);
    }
  }

  /** Removing the characters of `avoid` from a string of distinct characters
      removes at most |avoid| of them. */
  lemma {:induction false} WithoutSize(s: string, avoid: set<char>)
    requires Distinct(s)
    ensures |Without(s, avoid)| + |avoid| >= |s|
    decreases |s|
  {
    if s != [] {
      var init, x := s[..|s| - 1], s[|s| - 1];
      assert x !in init;
      if x in avoid {
        WithoutIgnoresAbsent(init, avoid, x);
        WithoutSize(init, avoid - {x});
      } else {
        WithoutSize(init, avoid);
      }
    }
  }

  /** At least 10 - |avoidDigits| digits remain to draw from. */
  lemma PopulationSize(avoidDigits: set<char>)
    ensures |Population(avoidDigits)| + |avoidDigits| >= 10
  {
    WithoutSize("0123456789", avoidDigits);
  }

  /** What random.sample(population, length) returns, joined: `length`
      characters taken from distinct positions of the population. */
  predicate IsSample(candidate: string, population: string, length: int) {
    |candidate| == length && Distinct(candidate)
    && forall i | 0 <= i < |candidate| :: candidate[i] in population
  }

  /** The acceptance test of the loop: root among the preferred roots, and safe. */
  predicate Accepted(candidate: string, preferredRoots: set<int>) {
    IsDigitString(candidate) && Root(candidate) in preferredRoots && IsSafeNumber(candidate)
  }

  /** The distinct accepted strings among the draws. */
  function AcceptedDraws(draws: seq<string>, preferredRoots: set<int>): set<string> {
    if draws == [] then {}
    else
      var last := draws[|draws| - 1];
      AcceptedDraws(draws[..|draws| - 1], preferredRoots) + (if Accepted(last, preferredRoots) then {last} else {})
  }

  lemma AcceptedDrawsSnoc(draws: seq<string>, i: int, preferredRoots: set<int>)
    requires 0 <= i < |draws|
    ensures AcceptedDraws(draws[..i + 1], preferredRoots)
            == AcceptedDraws(draws[..i], preferredRoots)
               + (if Accepted(draws[i], preferredRoots) then {draws[i]} else {})
  {
    assert draws[..i + 1][..i] == draws[..i];
  }

  /** The accepted draws are samples that pass the acceptance test, and the
      accepted draws of a prefix are among those of the whole run. */
  lemma {:induction false} AcceptedDrawsFacts(draws: seq<string>, k: int, preferredRoots: set<int>,
                                              population: string, length: int)
    requires 0 <= k <= |draws|
    requires forall i | 0 <= i < |draws| :: IsSample(draws[i], population, length)
    ensures forall c | c in AcceptedDraws(draws, preferredRoots) ::
              IsSample(c, population, length) && Accepted(c, preferredRoots)
    ensures AcceptedDraws(draws[..k], preferredRoots) <= AcceptedDraws(draws, preferredRoots)
    ensures forall c | c in AcceptedDraws(draws[..k], preferredRoots) ::
              IsSample(c, population, length) && Accepted(c, preferredRoots)
    ensures |AcceptedDraws(draws[..k], preferredRoots)| <= |AcceptedDraws(draws, preferredRoots)|
    decreases |draws|
  {
    if draws != [] {
      var init := draws[..|draws| - 1];
      if k == |draws| {
        assert draws[..k] == draws;
        AcceptedDrawsFacts(init, k - 1, preferredRoots, population, length);
      } else {
        assert init[..k] == draws[..k];
        AcceptedDrawsFacts(init, k, preferredRoots, population, length);
      }
    }
    SubsetSize(AcceptedDraws(draws[..k], preferredRoots), AcceptedDraws(draws, preferredRoots));
  }

  /** The sequence holds exactly the strings of the set. */
  ghost predicate Lists(s: seq<string>, items: set<string>) {
    forall c :: c in s <==> c in items
  }

  /** generate_combinations with its random draws supplied. It fails as the
      source's random.sample does when `length` does not fit the population,
      reports the draws exhausted where the source would loop on, and
      otherwise returns `limit` distinct accepted draws in ascending order. */
  method GenerateCombinations(preferredRoots: set<int>, avoidDigits: set<char>, length: int, limit: int,
                              draws: seq<string>)
    returns (r: Result<seq<string>, GenerateError>)
    requires forall i | 0 <= i < |draws| :: IsSample(draws[i], Population(avoidDigits), length)
    ensures limit <= 0 ==> r == Ok([])
    ensures limit > 0 && !(0 <= length <= |Population(avoidDigits)|) ==> r == Err(SampleLargerThanPopulation)
    ensures limit > 0 && 0 <= length <= |Population(avoidDigits)| ==>
              (r.Ok? <==> |AcceptedDraws(draws, preferredRoots)| >= limit)
              && (r.Err? ==> r.error == DrawsExhausted)
    ensures r.Ok? ==> StrictlySorted(r.value) && |r.value| == if limit <= 0 then 0 else limit
    ensures r.Ok? ==> exists k | 0 <= k <= |draws| :: Lists(r.value, AcceptedDraws(draws[..k], preferredRoots))
    ensures r.Ok? ==> forall c | c in r.value ::
              IsSample(c, Population(avoidDigits), length) && Root(c) in preferredRoots && IsSafeNumber(c)
  {
    var combinations: set<string> := {};
    var i := 0;
    while |combinations| < limit
      invariant 0 <= i <= |draws|
      invariant combinations == AcceptedDraws(draws[..i], preferredRoots)
      invariant |combinations| <= if limit <= 0 then 0 else limit
      invariant i > 0 ==> 0 <= length <= |Population(avoidDigits)|
      decreases |draws| - i
    {
      var digits := Population(avoidDigits);
      if length < 0 || length > |digits| {
        return Err(SampleLargerThanPopulation);
      }
      if i == |draws| {
        assert draws[..i] == draws;
        return Err(DrawsExhausted);
      }
      var candidate := draws[i];
      AcceptedDrawsSnoc(draws, i, preferredRoots);
      i := i + 1;
      var root := SumToRoot(candidate);
      if root !in preferredRoots || !IsSafeNumber(candidate) {
        continue;
      }
      combinations := combinations + {candidate};
    }
    AcceptedDrawsFacts(draws, i, preferredRoots, Population(avoidDigits), length);
    var sorted := SortedList(combinations);
    r := Ok(sorted);
    assert Lists(sorted, AcceptedDraws(draws[..i], preferredRoots));
  }

}
