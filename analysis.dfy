/** The two flows of the script around the generator: deriving a person's
    profile from name and date of birth, and analysing a number the person
    already has against that profile. */
module Analysis {
  import opened Results
  import opened Digits
  import opened Chaldean
  import opened Birth
  import opened Preferences
  import opened Safety
  import opened Generator

  /** Everything derived from name and date of birth. */
  datatype Profile = Profile(
    moolank: int,
    bhagyank: int,
    nameNumber: int,
    avoidDigits: set<char>,
    preferredRoots: set<int>)

  /** The derivation on submit: Moolank, Bhagyank, name number, the digits to
      avoid and the preferred roots. Each of the person's own numbers is a
      digit that is never avoided, and at least four digits stay available. */
  method ComputeProfile(name: string, day: int, month: int, year: int) returns (p: Profile)
    requires ValidDate(day, month, year)
    ensures p.moolank == Moolank(day)
    ensures p.bhagyank == Root(DigitsOnly(DateString(day, month, year)))
    ensures p.nameNumber == Fold(NameTotal(name))
    ensures p.avoidDigits == GetDigitsToAvoid(p.moolank, p.bhagyank, p.nameNumber)
    ensures p.preferredRoots == {p.moolank, p.bhagyank, p.nameNumber}
    ensures 1 <= p.moolank <= 9 && 1 <= p.bhagyank <= 9 && 0 <= p.nameNumber <= 9
    ensures forall x | x in p.preferredRoots :: 0 <= x <= 9 && DigitChar(x) !in p.avoidDigits
    ensures |Population(p.avoidDigits)| >= 4
  {
    var moolank := Moolank(day);
    var bhagyank := Bhagyank(day, month, year);
    var nameNumber := ChaldeanNumber(name);
    var avoid := GetDigitsToAvoid(moolank, bhagyank, nameNumber);
    p := Profile(moolank, bhagyank, nameNumber, avoid, PreferredRoots(moolank, bhagyank, nameNumber));
    AvoidShape(moolank, bhagyank, nameNumber);
    PopulationSize(avoid);
  }

  /** The facts the analysis reports about one number. */
  datatype NumberAnalysis = NumberAnalysis(
    root: nat,
    alignsWithPreferred: bool,
    containsRiskyDigit: bool,
    riskyDigitsFound: set<char>,
    isSafe: bool)

  datatype AnalysisError =
    | NoNumber   // an empty entry: the source shows no analysis
    | NotADigit  // int(d) raises ValueError inside sum_to_root

  /** The analysis of an entered number: its root and whether it is one of the
      preferred roots, the avoided digits it contains, and the safety verdict. */
  method AnalyzeNumber(number: string, preferredRoots: set<int>, avoidDigits: set<char>)
    returns (r: Result<NumberAnalysis, AnalysisError>)
    ensures r == Err(NoNumber) <==> number == []
    ensures r == Err(NotADigit) <==> number != [] && !IsDigitString(number)
    ensures r.Ok? <==> number != [] && IsDigitString(number)
    ensures r.Ok? ==> IsDigitString(number) && r.value.root == Root(number) && r.value.root <= 9
    ensures r.Ok? ==> (r.value.alignsWithPreferred <==> r.value.root in preferredRoots)
    ensures r.Ok? ==> forall d :: d in r.value.riskyDigitsFound <==> d in number && d in avoidDigits
    ensures r.Ok? ==> (r.value.containsRiskyDigit <==> r.value.riskyDigitsFound != {})
    ensures r.Ok? ==> (r.value.isSafe <==> IsSafeNumber(number))
  {
    if number == [] {
      return Err(NoNumber);
    }
    if !IsDigitString(number) {
      return Err(NotADigit);
    }
    var root := SumToRoot(number);
    var aligns := root in preferredRoots;
    var containsRisky := exists i | 0 <= i < |number| :: number[i] in avoidDigits;
    var found := set d | d in number && d in avoidDigits;
    if containsRisky {
      var i :| 0 <= i < |number| && number[i] in avoidDigits;
      assert number[i] in found;
    }
    var safe := IsSafeNumber(number);
    r := Ok(NumberAnalysis(root, aligns, containsRisky, found, safe));
  }

}
