# Numerology engine of numerology_tool.py

This project models the numerology engine of the Streamlit script `numerology_tool.py`:

- **Digit-root fold.** `sum_to_root` sums the digits of a string, then digit-sums the total again until it is at most 9.
- **Chaldean name number.** Each letter of the upper-cased name is mapped through the Chaldean table (`CHALDEAN_MAPPING`), and the total is folded the same way.
- **Birth numbers:**
  - Moolank is `day % 9 or 9`.
  - Bhagyank is the fold of all digits of the `DD/MM/YYYY` date string.
- **Avoid set.** `get_digits_to_avoid` takes the risky digits of Moolank and Bhagyank, then removes the person's own numbers.
- **Safety rules.** `is_safe_number` rejects a number on risk patterns, a trailing "00", "000" or "6", repeated digits, and a second '7'.
- **Candidate generator.** `generate_combinations` draws random samples of distinct digits until `limit` acceptable ones are collected, then returns them sorted.
- **Analysis checks.** These are applied to a number the user already has.

The modules follow the parts of the script:

| module | file | models |
|---|---|---|
| `Digits` | digits.dfy | digit strings, `int(str(n))`, the fold loop, `sum_to_root` |
| `Chaldean` | chaldean.dfy | the letter table, `name.upper()`, `chaldean_number` |
| `Birth` | birth.dfy | the `DD/MM/YYYY` string, the `isdigit` filter, Moolank, Bhagyank |
| `Preferences` | preferences.dfy | `MOOLANK_RISKY_DIGITS`, `get_digits_to_avoid`, the preferred roots |
| `Safety` | safety.dfy | `RISK_PATTERNS`, `in`, `count`, `endswith`, `is_safe_number` |
| `Ordering` | ordering.dfy | Python's `<` on strings and `sorted` of a set of strings |
| `Generator` | generator.dfy | `generate_combinations` |
| `Analysis` | analysis.dfy | the profile computed on submit and the number analysis |
| `StuckProfile` | stuck_profile.dfy | a profile for which the recommendation flow cannot finish |
| `Results`, `Sets` | results.dfy, sets.dfy | a result type and two cardinality lemmas |

Some loops in the source reassign a variable step by step, so they are methods with `while` loops. Each is proved against a function that specifies it:

- The digit-sum fold `while total > 9` is the method `Digits.ReduceTotal`, specified by `Digits.Fold`. It is shared by `SumToRoot`, `ChaldeanNumber` and `Bhagyank`.
- The generator grows its set of accepted candidates inside a loop. It is the method `Generator.GenerateCombinations`, and its loop invariant ties the set to `Generator.AcceptedDraws`.

The expressions `is_safe_number` and `get_digits_to_avoid` are functions.

Where the code and the tool's written description differ, the model follows the code:

- **Invalid length.** `random.sample` raises `ValueError` when `length` exceeds the digits left to draw from. The source therefore fails on the first attempt rather than looping. The model returns `Err(SampleLargerThanPopulation)`, and only when `limit > 0`, because with `limit <= 0` the loop body never runs.
- **Name number 0.** The name number is 0 for a name with no letter from the table, such as an empty name. `sum_to_root` is 0 for an empty or all-zero string.
- **Non-digit input.** `sum_to_root` on a string with a character that `int` cannot read raises `ValueError`. The model reads only the ASCII digits '0'..'9' and reports any other character as `Err(NotADigit)`. Other Unicode decimal digits are not covered, as listed under "## Left out".

## Model

| member | source | states |
|---|---|---|
| Digits.NatToString | numerology_tool.py:45 | `str(total)` is a non-empty digit string without a leading zero, and it has one character exactly when the number is at most 9 |
| Digits.ParseNatToString | numerology_tool.py:45 | `int(str(n)) == n` |
| Digits.DigitSumAppend | numerology_tool.py:49 | the digit sum of a concatenation is the sum of the digit sums |
| Digits.FoldStepFacts | numerology_tool.py:50-51 | one step of the fold keeps the value mod 9 and keeps it zero or non-zero, and it strictly decreases a total above 9, so the loop ends |
| Digits.Fold | numerology_tool.py:50-51 | the folded total is at most 9, congruent to the total mod 9, and 0 exactly when the total is 0 |
| Digits.FoldIsDigitalRoot | numerology_tool.py:50-51 | the fold is the digital root: 0 for 0, otherwise 1 + (total - 1) mod 9 |
| Digits.ReduceTotal | numerology_tool.py:44-45 | the `while total > 9` loop computes the fold of its input, a value in 0..9 congruent to the input mod 9 |
| Digits.DigitSumZero | numerology_tool.py:49 | the digit sum is 0 exactly when the string is empty or all zeros |
| Digits.SumToRoot | numerology_tool.py:48-52 | `sum_to_root` returns a value in 0..9, congruent to the digit sum mod 9, and 0 exactly when the string is empty or all zeros |
| Digits.RootOfDigit | numerology_tool.py:48-52 | `sum_to_root(d) == d` for a single digit |
| Digits.RootIdempotent | numerology_tool.py:48-52 | `sum_to_root(str(sum_to_root(s))) == sum_to_root(s)` |
| Digits.DigitCharValue | numerology_tool.py:67 | `str(int(d)) == d` for a digit character |
| Chaldean.LetterToNum | numerology_tool.py:30-40 | `letter_to_num.get(c, 0)`: a non-zero value is a key of the table whose letters contain `c`, and the value is 0 exactly when no entry of the table contains `c` |
| Chaldean.LetterValues | numerology_tool.py:30-43 | after upper-casing, a character has a value in 1..8 exactly when it is an ASCII letter, and its value is never above 8 |
| Chaldean.LetterSumAppend | numerology_tool.py:43 | the letter total of a concatenation is the sum of the letter totals |
| Chaldean.NameTotalZero | numerology_tool.py:43 | the name total is 0 exactly when no character of the name is in the table |
| Chaldean.ChaldeanNumber | numerology_tool.py:42-46 | `chaldean_number` is the fold of the name total: in 0..9, congruent to it mod 9, and 0 exactly when the name has no table letter |
| Chaldean.CaseInsensitive | numerology_tool.py:43 | two names that agree after upper-casing have the same total |
| Chaldean.LowerCaseInsensitive | numerology_tool.py:43 | lower-casing a name does not change its total |
| Chaldean.NonLetterIgnored | numerology_tool.py:43 | inserting a character that is not in the table anywhere in a name leaves its total unchanged |
| Chaldean.AlphabeticNameNumber | numerology_tool.py:42-46 | a non-empty name made of ASCII letters has a name number in 1..9 |
| Birth.FixedWidth | numerology_tool.py:136 | the `%d`, `%m` and `%Y` fields are zero-padded digit strings of the given width |
| Birth.FixedWidthRoundTrip | numerology_tool.py:144 | `int` of a zero-padded field gives back the number |
| Birth.FixedWidthDigitSum | numerology_tool.py:146-147 | a field's digit sum is congruent to its value mod 9, and 0 exactly when the value is 0 |
| Birth.DateString | numerology_tool.py:136 | the `DD/MM/YYYY` string has ten characters with '/' at positions 2 and 5 |
| Birth.DayFieldReadsBack | numerology_tool.py:144 | `int(dob_str.split("/")[0])` is the day |
| Birth.DigitsOnly | numerology_tool.py:146 | the `isdigit` filter yields a digit string |
| Birth.DigitsOnlyAppend | numerology_tool.py:146 | the filter distributes over concatenation |
| Birth.DigitsOnlyOfDigits | numerology_tool.py:146 | the filter leaves a digit string unchanged |
| Birth.Moolank | numerology_tool.py:145 | `day % 9 or 9` is in 1..9 and congruent to the day mod 9 |
| Birth.MoolankIsDayRoot | numerology_tool.py:144-145 | for a day in 1..31 the Moolank equals `sum_to_root` of the two-digit day field |
| Birth.DateDigits | numerology_tool.py:146 | the digits of the date string are the day, month and year fields, in order |
| Birth.FieldsDigitSum | numerology_tool.py:146-147 | the digit sum of the three fields is congruent to day + month + year mod 9 |
| Birth.DateDigitSum | numerology_tool.py:146-147 | the digit sum of the date is positive and congruent to day + month + year mod 9 |
| Birth.Bhagyank | numerology_tool.py:146-149 | Bhagyank is the fold of the date's digits, lies in 1..9 and is congruent to day + month + year mod 9 |
| Preferences.RiskyTableShape | numerology_tool.py:17-28 | the table has keys 1..9, three risky digits per key and none for other keys, and every risky digit is '1'..'9' and differs from its key |
| Preferences.RiskyUnion | numerology_tool.py:66 | the union of the two lookups contains only digits '1'..'9' |
| Preferences.GetDigitsToAvoid | numerology_tool.py:65-67 | the avoid set is a subset of the union of the two lookups; it keeps every risky digit except the digits of Moolank, Bhagyank and name number, and never contains those |
| Preferences.UnknownKeys | numerology_tool.py:66 | a Moolank or Bhagyank outside the table contributes nothing |
| Preferences.AvoidShape | numerology_tool.py:65-67 | at most six digits are avoided, all in '1'..'9' |
| Safety.ContainsAt | numerology_tool.py:55 | `p in s` holds exactly when `p` starts at some position of `s` |
| Safety.CountDistinct | numerology_tool.py:59 | in a string of distinct characters each character is counted once |
| Safety.CountRepeat | numerology_tool.py:59 | a character that occurs at two positions is counted at least twice |
| Safety.RepeatRule | numerology_tool.py:59 | the repeated-digit rule fires exactly when the characters are not pairwise distinct |
| Safety.RedundantRules | numerology_tool.py:57-61 | with distinct characters neither a trailing "000" nor a second '7' can occur |
| Safety.RepeatedPatternsUnreachable | numerology_tool.py:10-15 | the risk patterns made of one repeated digit never occur in a string of distinct characters |
| Safety.SafetyExamples | numerology_tool.py:54-63 | "1123", "1300", "100" and "2056" are unsafe |
| Safety.DistinctBound | numerology_tool.py:59 | distinct characters drawn from a set are no more than the set's size |
| Safety.SafeDigitStringLength | numerology_tool.py:54-63 | a safe digit string has at most ten digits |
| Safety.SafeCharacterization | numerology_tool.py:54-63 | `is_safe_number` holds exactly when the characters are distinct, no risk pattern occurs, and the string ends neither in "00" nor in '6' |
| Safety.SafeConsequences | numerology_tool.py:54-63 | a safe number has distinct characters, no risk pattern, no trailing "00" or '6', and at most one '7' |
| Ordering.LessIrreflexive | numerology_tool.py:77 | no string is below itself under Python's string `<` |
| Ordering.LessTransitive | numerology_tool.py:77 | Python's string `<` is transitive |
| Ordering.LessTotal | numerology_tool.py:77 | of two different strings one is below the other |
| Ordering.SortedPrepend | numerology_tool.py:77 | a string below the head of an ascending sequence can be put in front of it |
| Ordering.Insert | numerology_tool.py:77 | inserting a new string keeps the sequence ascending and adds exactly that string |
| Ordering.SortedList | numerology_tool.py:77 | `sorted` of a set is ascending without duplicates and holds exactly the set's members |
| Generator.Without | numerology_tool.py:72 | the filter keeps exactly the characters not avoided, and keeps distinct characters distinct |
| Generator.Population | numerology_tool.py:72 | the digits drawn from are distinct, and they are exactly the decimal digits not avoided |
| Generator.WithoutIgnoresAbsent | numerology_tool.py:72 | avoiding a character the string lacks changes nothing |
| Generator.WithoutSize | numerology_tool.py:72 | removing the avoided characters removes at most as many as are avoided |
| Generator.PopulationSize | numerology_tool.py:72 | at least 10 - \|avoid_digits\| digits remain to draw from |
| Generator.AcceptedDrawsSnoc | numerology_tool.py:74-76 | one more draw adds itself to the accepted set exactly when it is accepted |
| Generator.AcceptedDrawsFacts | numerology_tool.py:73-76 | every accepted draw is a sample of the population with a preferred root that passes the safety rules, and a longer run of draws accepts a superset |
| Generator.GenerateCombinations | numerology_tool.py:69-77 | with no positive limit the result is empty; a length that does not fit the population fails; otherwise the result exists exactly when the draws hold `limit` distinct accepted candidates, and it is then `limit` strings in ascending order, exactly the accepted draws up to the stopping point, each of the requested length with distinct non-avoided digits, a preferred root and passing the safety rules |
| Analysis.ComputeProfile | numerology_tool.py:144-152 | the profile holds Moolank, Bhagyank, name number, their avoid set and preferred roots; the person's own numbers are never avoided, and at least four digits stay available |
| Analysis.AnalyzeNumber | numerology_tool.py:183-202 | an empty entry gives no analysis and a non-digit fails; otherwise the analysis reports the root, whether it is preferred, exactly the avoided digits the number contains, and the safety verdict |
| StuckProfile.AshaBirthNumbers | numerology_tool.py:144-149 | 01/01/2001 has Moolank 1 and Bhagyank 5 |
| StuckProfile.AshaNameNumber | numerology_tool.py:42-46 | the name "Asha" has name number 1 |
| StuckProfile.AshaAvoidSet | numerology_tool.py:65-67 | Moolank 1, Bhagyank 5 and name number 1 avoid 2, 4, 6, 7, 8 and 9 |
| StuckProfile.AshaPopulation | numerology_tool.py:72 | with those digits avoided, exactly 0, 1, 3 and 5 are left |
| StuckProfile.AshaFourDigitDrawsRejected | numerology_tool.py:73-75 | every four-digit sample from 0, 1, 3, 5 has root 9 and is rejected for preferred roots {1, 5} |
| StuckProfile.AshaAcceptsNothing | numerology_tool.py:69-77 | no sequence of four-digit draws for this profile accepts any candidate, so the loop never reaches its limit |
| StuckProfile.AshaFiveDigitInfeasible | numerology_tool.py:72-73 | five distinct digits cannot be drawn from the four left |

## Left out

- The Streamlit user interface and session state (lines 7 and 126-211, apart from the computations at 144-152 and 187-202). These are interactive I/O.
- PDF generation and file handling through FPDF and `open` (lines 79-123). These are foreign library calls and file I/O.
- Date parsing and `strftime` (line 136). The date is modelled as day, month and year, limited to what the date picker admits (days 1..31, months 1..12, years 1900..9999), together with the `DD/MM/YYYY` string built from them. Calendar validity (such as 30 February) is not modelled.
- The randomness of `random.sample` (line 73). Each draw comes from a caller-supplied sequence, and each draw is required to be `length` distinct characters of the population.
- Generator.GenerateCombinations: does not claim that the source terminates. The source loops until `limit` candidates are accepted, with no bound. The model stops with `Err(DrawsExhausted)` when the supplied draws run out, and it is partially correct with respect to the unbounded loop.
- Chaldean.ChaldeanNumber: `name.upper()` is modelled for ASCII only. Python also upper-cases other Unicode letters (for example 'ß' to "SS"), which can produce table letters; this model leaves those characters unchanged.
- Analysis.AnalyzeNumber: only the ASCII digits '0'..'9' are read as digits. Python's `int` (line 49, reached from line 187) also reads every other Unicode decimal digit, such as "١٢٣٤" (Arabic-Indic) or "１２３４" (fullwidth). The source analyses such an entry, while the model reports `Err(NotADigit)`.
- Digits.SumToRoot: requires a string of ASCII digits, so it does not cover the other Unicode decimal digits that `int` also reads.
- The two `ValueError` crashes (non-digit input to `sum_to_root`, and a sample larger than the population) are modelled as error results rather than exceptions.
- `preferred_roots` is a list built from a set (line 152). Only membership in it is used, so it is modelled as a set; the display order is not modelled.

## Findings

| source | as written | input that shows it | evidently intended | confidence | as-written member | corrected member |
|---|---|---|---|---|---|---|
| numerology_tool.py:69-77 | the sampling loop exits only once `limit` distinct candidates have been accepted | name "Asha", born 01/01/2001: avoid set {2,4,6,7,8,9}, preferred roots {1,5}, `generate_combinations(..., 4, 5)`; every sample of 0, 1, 3, 5 has root 9, so no candidate is ever accepted and the call never returns | give up with an explicit failure when no more acceptable candidates can be found | not executed | StuckProfile.AshaAcceptsNothing | Generator.GenerateCombinations |
