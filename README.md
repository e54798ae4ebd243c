# Weight-training description parser, in Dafny

This project models `scripts/parse_weight_training.py`, the module that reads
the free-text description of a strength-training activity (for example, a
Hevy app export) and derives four metrics:
- the total volume in pounds;
- the number of sets;
- the number of repetitions;
- the number of distinct exercises.

The model has three parts, matching the module's three functions.

- **`parse_set_line`** is in `set_line.dfy`, module `SetLine`. It searches a
  line for *number, optional fraction, optional unit word, separator `x`/`X`/`×`,
  integer*. It reads the weight and the repetitions out of the match. When the
  lower-cased line mentions `kg` or `kilogram`, it converts the weight to
  pounds.
  - The regular expression is written twice:
    - as a relation, `IsSetMatch`, over the positions of a match;
    - as a greedy scanner, `MatchAt`, which the search `FirstMatchFrom` calls
      at each index in turn.
  - Two lemmas prove that the scanner agrees with the relation:
    - `MatchAtSound`: every span the scanner reports is accepted by the relation;
    - `MatchAtComplete`: wherever the relation accepts a span, the scanner
      finds one with the same weight group and the longest repetition group.
  - From these, `parse_set_line` is characterised through `re.search`'s
    choice: the leftmost match, and the longest repetition group there.
- **`parse_weight_training_description`** is in `aggregator.dfy`, module
  `Aggregator`. It is imperative: a `while` loop over the lines of the
  description that updates the three totals, the set of exercises and the
  current-exercise cursor.
  - Each line is first classified by `Classify` as blank, a set line, an
    exercise name, or other.
  - `Step` and `Fold` give the loop variables after each line.
  - The method `ParseWeightTrainingDescription` is proved to end in the state
    `Fold` describes. For proof modularity, the loop body is its own method,
    `ProcessLine`.
  - Lemmas relate `Fold` to definitions that do not follow the loop:
    - the records of the lines that parse;
    - their sums;
    - the most recent exercise name;
    - the set of names that some set line was credited to.
- **`get_weight_training_metrics`** is in `adapter.dfy`, module `Adapter`. It
  reads the `description` field and maps a missing, `None` or empty one to `""`.

`text.dfy` (module `Text`) holds the Python string operations the parser uses:
- the `\d` and `\s` character classes;
- `int()`;
- `str.lower()`;
- substring `in`;
- `startswith`;
- `strip()`;
- `split('\n')`, with `join` as its inverse.

`cases.dfy` (module `Cases`) proves the shapes of the unit tests' set lines,
`<weight> <unit> x <reps>` and `<int>.<frac> <unit> x <reps>`, for every digit
string and every unit word. It also proves the lines that hold no set.

## Model

| member | source | states |
|---|---|---|
| Text.NatValue | scripts/parse_weight_training.py:29 | `int()` of a digit string: each digit in turn, times ten plus the next; the value is below ten to the number of digits |
| Text.IsSpace | scripts/parse_weight_training.py:22 | the characters `\s` and `strip()` treat as whitespace (lines 22, 67 and 87): space, tab, line feed, vertical tab, form feed, carriage return, the Latin-1 controls 0x1C-0x1F and 0x85, and no-break space 0xA0 |
| Text.NatValueCons | scripts/parse_weight_training.py:29 | a leading digit adds its value times ten to the number of digits after it |
| Text.Lower | scripts/parse_weight_training.py:32 | `str.lower()`: the line with `A`-`Z` mapped to `a`-`z`, of the same length |
| Text.Contains | scripts/parse_weight_training.py:32 | `w in s`: whether some index of `s` starts a copy of `w`, tried from the front |
| Text.StartsWith | scripts/parse_weight_training.py:88-90 | `str.startswith(p)`: `p` is no longer than the line and equals its first `len(p)` characters |
| Text.Strip | scripts/parse_weight_training.py:67 | `str.strip()`: the line after the leading whitespace run, with its trailing whitespace removed |
| Text.Split | scripts/parse_weight_training.py:59 | `str.split('\n')`: the text up to the first newline, then the split of the rest; at least one piece, even for `""` |
| Text.SkipWhileSpec | scripts/parse_weight_training.py:22 | the greedy run of `\d+` or `\s*` passes only characters of its class and stops at one outside it |
| Text.SkipWhileUnique | scripts/parse_weight_training.py:22 | a run of class characters that cannot be extended is exactly the run the greedy scan finds |
| Text.ContainsSpec | scripts/parse_weight_training.py:32 | the substring test `w in s` holds exactly when `w` occurs at some index of `s` |
| Text.StripSpec | scripts/parse_weight_training.py:67 | `strip()` returns a slice of the line with only whitespace cut from each end, and the result neither starts nor ends with whitespace |
| Text.SplitPieces | scripts/parse_weight_training.py:59 | no piece produced by `split('\n')` contains a newline |
| Text.SplitJoin | scripts/parse_weight_training.py:59 | joining the pieces of `split('\n')` with newlines gives back the description |
| SetLine.IsSetMatch | scripts/parse_weight_training.py:22 | the pattern as a relation on positions: digits, an optional point and digits, spaces, an optional unit word from `lbs`, `lb`, `pounds`, `pound`, `kg`, `kilograms`, `kilogram`, spaces, one of `x`, `X`, `×`, spaces, digits |
| SetLine.MatchAt | scripts/parse_weight_training.py:22 | the greedy scan from an index: the longest digit run, a fraction only when a digit follows the point, spaces, the first unit word that occurs, spaces, a separator, spaces, the longest digit run; a reported span starts at that index and lies in the line |
| SetLine.FirstMatchFrom | scripts/parse_weight_training.py:23 | `re.search`: the first index at or after the given one where the scan succeeds; a reported index is one where it does |
| SetLine.MatchAtSound | scripts/parse_weight_training.py:22 | every span the greedy scanner reports is accepted by the pattern: digits, an optional `.digits`, spaces, an optional unit word, spaces, a separator, spaces, digits |
| SetLine.MatchAtComplete | scripts/parse_weight_training.py:22 | wherever the pattern matches, the scanner finds a match at the same start, with the same weight group and a repetition group at least as long; greedy scanning loses no match |
| SetLine.UnitEndUnique | scripts/parse_weight_training.py:22 | a unit word followed by a space or a separator is the one the unit alternation picks, whichever alternative a backtracking matcher tries first |
| SetLine.FirstMatchFromFirst | scripts/parse_weight_training.py:23 | the search finds a match at or before any index where one starts |
| SetLine.IsSearchMatch | scripts/parse_weight_training.py:23 | the match `re.search` reports: a match of the pattern whose start is the leftmost of any match, and whose repetition group is the longest among the matches at that start |
| SetLine.FractionValue | scripts/parse_weight_training.py:28 | the value of the digits after a decimal point, between 0 and 1 |
| SetLine.FractionValueSpec | scripts/parse_weight_training.py:28 | the digits after a point are worth their integer value over ten to the number of digits |
| SetLine.DecimalValueWhole | scripts/parse_weight_training.py:28 | `float()` of a digit string is its integer value |
| SetLine.DecimalValuePoint | scripts/parse_weight_training.py:28 | `float()` of `i.f` is the value of `i` plus the fraction value of `f` |
| SetLine.DecimalValueFraction | scripts/parse_weight_training.py:28 | `float()` of `i.f` is exactly `i + f / 10^len(f)`, for example 62.5 for `62.5` |
| SetLine.DecimalValue | scripts/parse_weight_training.py:28 | `float()` of the weight group is never negative |
| SetLine.MentionsKg | scripts/parse_weight_training.py:32 | whether the lower-cased whole line contains `kg` or `kilogram` |
| SetLine.RecordFrom | scripts/parse_weight_training.py:28-33 | a set record built from a match has a non-negative weight, converted from kilograms when the line mentions them |
| SetLine.ParseSetLine | scripts/parse_weight_training.py:11-35 | a parsed weight is never negative |
| SetLine.ParseSetLineNone | scripts/parse_weight_training.py:22-26 | `parse_set_line` returns `None` exactly when no span of the line matches the pattern |
| SetLine.ParseSetLineIsSearch | scripts/parse_weight_training.py:22-35 | for the match `re.search` reports, which is the leftmost with the longest repetition group there, the result is that match's weight and repetitions, with the line-wide kilogram conversion |
| SetLine.ParseSetLineFound | scripts/parse_weight_training.py:23-35 | whenever `parse_set_line` succeeds, its result is the record of a match `re.search` would report |
| SetLine.ParseSetLineSeparatorBlind | scripts/parse_weight_training.py:22 | two lines that differ only in which of `x`, `X` or `×` they use as separators give the same result |
| SetLine.GuardFrom | scripts/parse_weight_training.py:87 | the search for `\d+\s*[xX×]\s*\d+` from an index: the greedy guard scan at that index or a later one succeeds |
| SetLine.GuardAt | scripts/parse_weight_training.py:87 | whether the guard pattern (digits, spaces, one of `x`, `X`, `×`, spaces, digits) matches starting at one given index of the line |
| SetLine.HasBareSetPattern | scripts/parse_weight_training.py:87 | the truth value of the guard's `re.search` on the whole line |
| SetLine.GuardFromSound | scripts/parse_weight_training.py:87 | when the greedy search for `\d+\s*[xX×]\s*\d+` succeeds, the guard pattern matches somewhere in the line |
| SetLine.GuardAtComplete | scripts/parse_weight_training.py:87 | wherever the guard pattern matches, the greedy guard scan from that start succeeds |
| SetLine.GuardFromComplete | scripts/parse_weight_training.py:87 | the guard search from an index finds any guard match that starts at or after it |
| SetLine.HasBareSetPatternSpec | scripts/parse_weight_training.py:87 | the guard search succeeds exactly when the guard pattern matches somewhere in the line |
| SetLine.GuardMatchIsSetMatch | scripts/parse_weight_training.py:87 | every match of the label guard is also a match of the set pattern, with no fraction and no unit |
| SetLine.LabelGuardNeverFires | scripts/parse_weight_training.py:87 | on a line where `parse_set_line` failed, the guard pattern matches nowhere, so `re.search(r'\d+\s*[xX×]\s*\d+', line)` is always false |
| Aggregator.Truthy | scripts/parse_weight_training.py:79 | the truth value of `current_exercise`: set, and not the empty string |
| Aggregator.IsExerciseLabel | scripts/parse_weight_training.py:87-91 | the exercise-name test: no guard match, the lower-cased line starting with none of `set `, `logged with`, `rep `, and more than three characters |
| Aggregator.Classify | scripts/parse_weight_training.py:67-93 | what the loop body makes of one raw line, in its order: blank once stripped, else a set when `parse_set_line` accepts the stripped line, else an exercise name when it passes the test, else nothing |
| Aggregator.Step | scripts/parse_weight_training.py:66-93 | one turn of the loop on the state: a set adds its volume, one set and its reps and credits a truthy cursor; an exercise name becomes the cursor; other lines change nothing |
| Aggregator.Fold | scripts/parse_weight_training.py:66-93 | the state after the lines so far: the start state (zero totals, no exercises, no cursor) followed by one `Step` per line |
| Aggregator.FoldStep | scripts/parse_weight_training.py:66-93 | processing one more line is one more turn of the loop body |
| Aggregator.SetVolume | scripts/parse_weight_training.py:76 | the volume a set adds to the total: its weight times its repetitions |
| Aggregator.ProcessLine | scripts/parse_weight_training.py:66-93 | one turn of the loop, as written in the source, leaves the totals, the exercise set and the cursor as `Step` says for that line's classification |
| Aggregator.ParseWeightTrainingDescription | scripts/parse_weight_training.py:38-100 | the loop ends in the state the fold over the lines' classifications gives, and the result is that state's metrics; a `None` or empty description gives all zeros |
| Aggregator.Cents | scripts/parse_weight_training.py:96 | the volume in cents, rounded: down below half a cent, up above, and to the even neighbour at exactly half |
| Aggregator.Round2 | scripts/parse_weight_training.py:96 | `round(x, 2)` as that whole number of cents |
| Aggregator.CentsNearest | scripts/parse_weight_training.py:96 | `round(x, 2)` picks the whole number of cents nearest to `x`, and the even number of cents on a tie |
| Aggregator.Round2Close | scripts/parse_weight_training.py:96 | rounding moves the volume by at most half a cent |
| Aggregator.Round2Exact | scripts/parse_weight_training.py:96 | a volume that is already a whole number of cents is returned unchanged |
| Aggregator.Round2NonNegative | scripts/parse_weight_training.py:96 | rounding a non-negative volume gives a non-negative volume |
| Aggregator.Summary | scripts/parse_weight_training.py:95-100 | the returned dict for the loop's final variables: the volume rounded to two decimals, the set and repetition counts, and the number of distinct exercises |
| Aggregator.DescriptionMetrics | scripts/parse_weight_training.py:51-100 | the whole function: all zeros for `None` or the empty string, otherwise the summary of the fold over the lines of `split('\n')` |
| Aggregator.FoldTotals | scripts/parse_weight_training.py:74-78 | `total_sets` is the number of set lines, `total_reps` the sum of their repetitions, and the volume the sum of weight × repetitions over them |
| Aggregator.FoldCursor | scripts/parse_weight_training.py:87-93 | after any prefix of the lines, the cursor is the most recent exercise name, or `None` when there has been none |
| Aggregator.CreditedSnoc | scripts/parse_weight_training.py:79-80 | a set line adds the current exercise name, if any, to the names credited so far, and any other line adds nothing |
| Aggregator.KindsLabelsLong | scripts/parse_weight_training.py:91 | every line accepted as an exercise name is longer than three characters |
| Aggregator.LastLabelLong | scripts/parse_weight_training.py:79-93 | the cursor, once set, names a line longer than three characters, so it is always truthy |
| Aggregator.FoldExercises | scripts/parse_weight_training.py:79-80 | the exercise set is exactly the set of names that were the cursor when some set line parsed |
| Aggregator.ExercisesAtMostSets | scripts/parse_weight_training.py:74-80 | there are never more distinct exercises than sets |
| Aggregator.SummaryFold | scripts/parse_weight_training.py:95-100 | the returned dict has the rounded sum of volumes, the number of records, the sum of repetitions and the number of credited names |
| Aggregator.EmptyDescription | scripts/parse_weight_training.py:59 | the one empty line that `''.split('\n')` gives holds no set and credits no name |
| Aggregator.DescriptionMetricsSpec | scripts/parse_weight_training.py:38-100 | for every description, including the empty one, the metrics are the rounded volume, set count and repetition sum of the lines that parse, and the number of distinct names credited to a set |
| Aggregator.ClassifyParsed | scripts/parse_weight_training.py:67-74 | a line counts as a set exactly when `parse_set_line` accepts the stripped line, and its record is what `parse_set_line` returns |
| Aggregator.ExerciseLabelUnguarded | scripts/parse_weight_training.py:87-91 | on a line that is not a set line, the exercise-name test reduces to its three prefix checks and the length check |
| Aggregator.KindsWeightsNonNegative | scripts/parse_weight_training.py:72-75 | every parsed set in a description has a non-negative weight |
| Aggregator.SetVolumeNonNegative | scripts/parse_weight_training.py:76 | a set with a non-negative weight adds a non-negative volume |
| Aggregator.FoldVolumeNonNegative | scripts/parse_weight_training.py:76 | the running volume is never negative |
| Aggregator.DescriptionMetricsBounds | scripts/parse_weight_training.py:95-100 | the returned volume is never negative, and `exercise_count` never exceeds `total_sets` |
| Adapter.DescriptionField | scripts/parse_weight_training.py:112 | the description is `""` exactly when the field is missing, `None` or empty, and otherwise it is the field's value |
| Adapter.GetWeightTrainingMetrics | scripts/parse_weight_training.py:103-113 | the metrics are those of the field's value; a missing, `None` or empty description gives all zeros |
| Cases.NoDigitNoSet | scripts/parse_weight_training.py:22-26 | a line without a digit is never a set line |
| Cases.EmptyLine | tests/test_parse_weight_training.py:69-72 | `parse_set_line("")` is `None` |
| Cases.ExerciseName | tests/test_parse_weight_training.py:64-67 | `parse_set_line("Exercise Name")` is `None` |
| Cases.UnitLetters | scripts/parse_weight_training.py:22 | every unit word is lower case, and only `kg`, `kilogram` and `kilograms` contain a `k` |
| Cases.SetLineMatches | scripts/parse_weight_training.py:22 | `<weight> <unit> x <reps>`, with digit strings and an empty or recognised unit, matches the pattern over the whole line, with the weight and the repetitions as its groups |
| Cases.SetLineTail | scripts/parse_weight_training.py:22 | after any weight text, the rest of such a line is a space, the unit, ` x ` and the reps' digits, as the pattern's later pieces require |
| Cases.SetLineSearch | scripts/parse_weight_training.py:22-29 | that whole-line match is the one `re.search` reports |
| Cases.MentionsKgHasK | scripts/parse_weight_training.py:32 | a line that mentions kilograms contains a `k` or a `K` |
| Cases.SetLineKgUnit | scripts/parse_weight_training.py:32 | a line whose unit is `kg`, `kilogram` or `kilograms` mentions kilograms |
| Cases.SetLineNoKgUnit | scripts/parse_weight_training.py:32 | a line with a numeral weight, digit reps and any other unit, or none, does not mention kilograms |
| Cases.SetLineKg | scripts/parse_weight_training.py:32 | a line with a numeral weight mentions kilograms exactly when its unit is `kg`, `kilogram` or `kilograms` |
| Cases.SetLineRecordFrom | scripts/parse_weight_training.py:28-33 | the record of such a line has the integer value of the weight, times 2.20462 when the unit names kilograms, and the integer value of the repetitions |
| Cases.SetLineRecord | tests/test_parse_weight_training.py:43-48 | `parse_set_line` of such a line gives the weight in pounds (a missing unit meaning pounds) and the repetitions; with an empty unit this shape has two spaces before the `x`, and the single-space `100 x 10` is `BareLineRecord` |
| Cases.BareLineMatches | scripts/parse_weight_training.py:22 | in `<weight> x <reps>` with whole numbers and no unit, the pattern matches the whole line, with the weight and reps as its groups |
| Cases.BareLineSearch | scripts/parse_weight_training.py:22-23 | that whole-line match is the one `re.search` reports |
| Cases.BareLineRecordFrom | scripts/parse_weight_training.py:28-33 | nothing in such a line mentions kilograms, so its record is the integer weight in pounds and the integer repetitions |
| Cases.BareLineRecord | tests/test_parse_weight_training.py:36-41 | `parse_set_line` of `<weight> x <reps>`, the shape of `100 x 10`, gives the weight unchanged as pounds and the repetitions |
| Cases.PointLineMatches | scripts/parse_weight_training.py:22 | `<int>.<frac> <unit> x <reps>` matches the pattern over the whole line, with the fraction inside the weight group |
| Cases.PointLineSearch | scripts/parse_weight_training.py:22-29 | that whole-line match is the one `re.search` reports |
| Cases.PointLineRecordFrom | scripts/parse_weight_training.py:28-33 | the record of such a line has the exact value `i + f / 10^len(f)`, times 2.20462 when the unit names kilograms, and the integer value of the reps |
| Cases.PointLineRecord | scripts/parse_weight_training.py:22-35 | `parse_set_line` of `<int>.<frac> <unit> x <reps>` gives the exact decimal weight in pounds and the reps, the shape of `62.5 lbs x 8` |

## Left out

- Floating point: weights, the 2.20462 factor, the volume and `round(x, 2)` are
  exact reals. `float()` of the weight group is its exact decimal value, and
  rounding is exact round-half-to-even to cents. The binary representation
  error of Python floats is not modelled.
- Unicode:
  - `\d` is the ASCII digits;
  - `\s` and `strip()` whitespace are the Latin-1 whitespace characters;
  - `lower()` maps only `A`-`Z`.
  Other Unicode digits, spaces and case mappings are not modelled.
- The general regular-expression engine: only the two patterns in the module
  are modelled, as hand-written scanners.
- Python's limits on number conversion:
  - `Text.NatValue` of the repetition group (line 29) is a number however many
    digits it has. In Python 3.11 and later, and in the 3.7-3.10 security
    releases, `int()` raises `ValueError` above 4300 digits
    (`sys.get_int_max_str_digits()`), and that error escapes
    `parse_weight_training_description`.
  - `float()` of a weight group above about 1.8e308 (line 28) is `inf`. With 0
    repetitions, line 76 then adds `nan` to the volume. The model's weight is
    the exact finite real, and such a set adds 0.
- The activity dict: it is modelled as a map from field names to optional
  strings. A `description` value of another type is not modelled.
- The unit tests' full lines, such as `Set 1: 175 lbs x 7` or the Hevy export
  with its expected 7230 / 12 / 75, are not worked through character by
  character. What they check is covered by the general lemmas:
  - `ParseSetLineIsSearch` and `ParseSetLineFound` cover the search past a
    leading `Set 1:` and a trailing `[Failure]`;
  - `SetLineRecord` and `PointLineRecord` cover the `<weight> <unit> x <reps>`
    shape, with whole and fractional weights;
  - `DescriptionMetricsSpec` and `FoldTotals` cover the totals.
- SetLine.MatchAtComplete: it states that the scanner finds some match at the
  same start with a repetition group at least as long, not that every match
  there is found. `re.search` reports only the longest, so this is what
  `parse_set_line` depends on.
