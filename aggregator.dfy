/**
 * `parse_weight_training_description`: one pass over the lines of a workout
 * description that totals the sets `parse_set_line` recognises and collects
 * the exercise names that precede them.
 *
 * `Step` and `Fold` give the loop's variables after each line; the method
 * `ParseWeightTrainingDescription` is the loop itself, proved to end in the
 * state `Fold` describes. The lemmas relate `Fold` to definitions that say
 * what the totals are without following the loop: the records of the lines
 * that parse (`Records`), the most recent exercise name (`LastLabel`) and the
 * set of names some set line was credited to (`Credited`).
 */
module Aggregator {
  import opened Wrappers
  import opened Text
  import opened SetLine

  /** The dict the function returns, one field per key. */
  datatype Metrics = Metrics(totalVolumeLbs: real, totalSets: nat, totalReps: nat, exerciseCount: nat)

  const Zero: Metrics := Metrics(0.0, 0, 0, 0)

  /** The loop's variables: `total_volume`, `total_sets`, `total_reps`, `exercises`, `current_exercise`. */
  datatype Tally = Tally(volume: real, sets: nat, reps: nat, exercises: set<string>, current: Option<string>)

  const Start: Tally := Tally(0.0, 0, 0, {}, None)

  /** Python's truth value of `current_exercise`: not `None` and not empty. */
  predicate Truthy(cursor: Option<string>) {
    cursor.Some? && cursor.value != []
  }

  /** The test a line that is not a set line must pass to become the current exercise. */
  predicate IsExerciseLabel(line: string) {
    && !HasBareSetPattern(line)
    && !StartsWith(Lower(line), "set ")
    && !StartsWith(Lower(line), "logged with")
    && !StartsWith(Lower(line), "rep ")
    && |line| > 3
  }

  /**
   * What one line of the description is to the loop body, decided in the
   * order the body decides it: blank after stripping, a set line, an
   * exercise name, or none of these.
   */
  datatype LineKind = Blank | Parsed(record: SetRecord) | Label(name: string) | Other

  function Classify(raw: string): LineKind {
    var line := Strip(raw);
    if line == [] then Blank
    else match ParseSetLine(line)
      case Some(r) => Parsed(r)
      case None => if IsExerciseLabel(line) then Label(line) else Other
  }

  /** The classification of each line, in order. */
  function Kinds(lines: seq<string>): (ks: seq<LineKind>)
    ensures |ks| == |lines|
  {
    seq(|lines|, i requires 0 <= i < |lines| => Classify(lines[i]))
  }

  /** The volume of one set: its weight times its repetitions. */
  function SetVolume(r: SetRecord): real {
    r.weight * r.reps as real
  }

  /** One turn of the loop. */
  function Step(t: Tally, k: LineKind): Tally {
    match k
    case Parsed(r) =>
      Tally(t.volume + SetVolume(r), t.sets + 1, t.reps + r.reps,
            if Truthy(t.current) then t.exercises + {t.current.value} else t.exercises,
            t.current)
    case Label(name) => t.(current := Some(name))
    case _ => t
  }

  /** The loop's variables after the lines classified as `ks`. */
  function Fold(ks: seq<LineKind>): Tally {
    if ks == [] then Start else Step(Fold(ks[..|ks| - 1]), ks[|ks| - 1])
  }

  /** The fold over one more kind takes one more step. */
  lemma FoldStep(ks: seq<LineKind>, i: nat, t: Tally)
    requires i < |ks| && t == Fold(ks[..i])
    ensures Fold(ks[..i + 1]) == Step(t, ks[i])
  {
    assert ks[..i + 1][..i] == ks[..i];
  }

  /**
   * Python's `round(x, 2)` on the exact value `x`: the integer nearest to
   * `100 * x`, the even one when two are equally near.
   */
  function Cents(x: real): int {
    var c := x * 100.0;
    var n := c.Floor;
    var f := c - n as real;
    if f < 0.5 then n
    else if f > 0.5 then n + 1
    else if n % 2 == 0 then n
    else n + 1
  }

  function Round2(x: real): real {
    Cents(x) as real / 100.0
  }

  function Dist(k: int, c: real): real {
    if k as real <= c then c - k as real else k as real - c
  }

  /** `Cents(x)` is an integer nearest to `100 * x`, and of two equally near ones the even one. */
  lemma CentsNearest(x: real, k: int)
    ensures Dist(Cents(x), x * 100.0) <= Dist(k, x * 100.0)
    ensures Dist(Cents(x), x * 100.0) == Dist(k, x * 100.0) && k != Cents(x) ==> Cents(x) % 2 == 0
  {
    var c := x * 100.0;
    var n := c.Floor;
    var f := c - n as real;
    assert 0.0 <= f < 1.0;
    if k <= n - 1 {
      assert Dist(k, c) >= 1.0 + f;
    } else if k >= n + 2 {
      assert Dist(k, c) >= 2.0 - f;
    }
  }

  /** Rounding moves a value by at most half a cent. */
  lemma Round2Close(x: real)
    ensures -0.005 <= Round2(x) - x <= 0.005
  {
    CentsNearest(x, (x * 100.0).Floor);
  }

  /** A whole number of cents is left as it is. */
  lemma Round2Exact(k: int)
    ensures Round2(k as real / 100.0) == k as real / 100.0
  {
    var x := k as real / 100.0;
    assert x * 100.0 == k as real;
  }

  /** The returned dict for the loop's final variables. */
  function Summary(t: Tally): Metrics {
    Metrics(Round2(t.volume), t.sets, t.reps, |t.exercises|)
  }

  /** What `parse_weight_training_description` returns, `None` standing for Python's `None`. */
  function DescriptionMetrics(description: Option<string>): Metrics {
    if description.None? || description.value == [] then Zero
    else Summary(Fold(Kinds(Split(description.value, '\n'))))
  }

  /**
   * One turn of the `for line in lines` loop: strip the line, skip it when
   * blank, add a parsed set to the totals (crediting the current exercise),
   * and otherwise make the line the current exercise when it passes the test.
   */
  method ProcessLine(totalVolume0: real, totalSets0: nat, totalReps0: nat, exercises0: set<string>,
                     currentExercise0: Option<string>, raw: string)
    returns (totalVolume: real, totalSets: nat, totalReps: nat, exercises: set<string>, currentExercise: Option<string>)
    ensures Tally(totalVolume, totalSets, totalReps, exercises, currentExercise)
            == Step(Tally(totalVolume0, totalSets0, totalReps0, exercises0, currentExercise0), Classify(raw))
  {
    totalVolume, totalSets, totalReps, exercises, currentExercise :=
      totalVolume0, totalSets0, totalReps0, exercises0, currentExercise0;
    var line := Strip(raw);
    if line != [] {
      var setData := ParseSetLine(line);
      if setData.Some? {
        var r := setData.value;
        totalVolume := totalVolume + SetVolume(r);
        totalSets := totalSets + 1;
        totalReps := totalReps + r.reps;
        if Truthy(currentExercise) {
          exercises := exercises + {currentExercise.value};
        }
      } else if IsExerciseLabel(line) {
        currentExercise := Some(line);
      }
    }
  }

  /** `parse_weight_training_description`: the early return, then the loop over the lines, then the dict. */
  method ParseWeightTrainingDescription(description: Option<string>) returns (m: Metrics)
    ensures m == DescriptionMetrics(description)
    ensures description.None? || description == Some([]) ==> m == Zero
  {
    if description.None? || description.value == [] {
      return Zero;
    }
    var lines := Split(description.value, '\n');
    ghost var ks := Kinds(lines);
    var totalVolume: real := 0.0;
    var totalSets: nat := 0;
    var totalReps: nat := 0;
    var exercises: set<string> := {};
    var currentExercise: Option<string> := None;
    var i := 0;
    while i < |lines|
      invariant i <= |lines|
      invariant Tally(totalVolume, totalSets, totalReps, exercises, currentExercise) == Fold(ks[..i])
    {
      FoldStep(ks, i, Tally(totalVolume, totalSets, totalReps, exercises, currentExercise));
      totalVolume, totalSets, totalReps, exercises, currentExercise :=
        ProcessLine(totalVolume, totalSets, totalReps, exercises, currentExercise, lines[i]);
      i := i + 1;
    }
    assert ks[..i] == ks;
    m := Metrics(Round2(totalVolume), totalSets, totalReps, |exercises|);
  }

  /** The records of the set lines, in order. */
  function Records(ks: seq<LineKind>): seq<SetRecord> {
    if ks == [] then []
    else
      var rest := Records(ks[..|ks| - 1]);
      match ks[|ks| - 1]
      case Parsed(r) => rest + [r]
      case _ => rest
  }

  function TotalReps(rs: seq<SetRecord>): nat {
    if rs == [] then 0 else TotalReps(rs[..|rs| - 1]) + rs[|rs| - 1].reps
  }

  function TotalVolume(rs: seq<SetRecord>): real {
    if rs == [] then 0.0 else TotalVolume(rs[..|rs| - 1]) + SetVolume(rs[|rs| - 1])
  }

  /** The most recent exercise name. */
  function LastLabel(ks: seq<LineKind>): Option<string> {
    if ks == [] then None
    else if ks[|ks| - 1].Label? then Some(ks[|ks| - 1].name)
    else LastLabel(ks[..|ks| - 1])
  }

  /** The names that were the most recent exercise name when some set line parsed. */
  ghost function Credited(ks: seq<LineKind>): set<string> {
    set j | 0 <= j < |ks| && ks[j].Parsed? && LastLabel(ks[..j]).Some? :: LastLabel(ks[..j]).value
  }

  /** Every exercise name among `ks` is longer than three characters. */
  ghost predicate LabelsLong(ks: seq<LineKind>) {
    forall j :: 0 <= j < |ks| && ks[j].Label? ==> |ks[j].name| > 3
  }

  /** The totals are the count and the sums over the records of the set lines. */
  lemma {:induction false} FoldTotals(ks: seq<LineKind>)
    ensures Fold(ks).sets == |Records(ks)|
    ensures Fold(ks).reps == TotalReps(Records(ks))
    ensures Fold(ks).volume == TotalVolume(Records(ks))
  {
    if ks != [] {
      FoldTotals(ks[..|ks| - 1]);
      if ks[|ks| - 1].Parsed? {
        var rs := Records(ks);
        assert rs[..|rs| - 1] == Records(ks[..|ks| - 1]);
      }
    }
  }

  /** The cursor is the most recent exercise name. */
  lemma {:induction false} FoldCursor(ks: seq<LineKind>)
    ensures Fold(ks).current == LastLabel(ks)
  {
    if ks != [] {
      FoldCursor(ks[..|ks| - 1]);
    }
  }

  /** Appending a line credits at most the most recent earlier exercise name. */
  lemma CreditedSnoc(ks: seq<LineKind>)
    requires ks != []
    ensures var init := ks[..|ks| - 1];
            Credited(ks)
            == Credited(init) + if ks[|ks| - 1].Parsed? && LastLabel(init).Some? then {LastLabel(init).value} else {}
  {
    var init := ks[..|ks| - 1];
    forall j | 0 <= j < |init| ensures ks[j] == init[j] && ks[..j] == init[..j] {
    }
    assert ks[..|init|] == init;
  }

  /** Every line the loop takes as an exercise name is longer than three characters. */
  lemma KindsLabelsLong(lines: seq<string>)
    ensures LabelsLong(Kinds(lines))
  {
  }

  /** So the most recent exercise name, once there is one, is never empty. */
  lemma {:induction false} LastLabelLong(ks: seq<LineKind>)
    requires LabelsLong(ks)
    ensures LastLabel(ks).Some? ==> |LastLabel(ks).value| > 3
  {
    if ks != [] && !ks[|ks| - 1].Label? {
      var init := ks[..|ks| - 1];
      assert LabelsLong(init) by {
        forall j | 0 <= j < |init| && init[j].Label? ensures |init[j].name| > 3 {
          assert init[j] == ks[j];
        }
      }
      LastLabelLong(init);
    }
  }

  /**
   * The exercises recorded are exactly the names some set line was credited
   * to; the `if current_exercise` test never drops a name, since names are
   * never empty.
   */
  lemma {:induction false} FoldExercises(ks: seq<LineKind>)
    requires LabelsLong(ks)
    ensures Fold(ks).exercises == Credited(ks)
  {
    if ks != [] {
      var init := ks[..|ks| - 1];
      assert LabelsLong(init) by {
        forall j | 0 <= j < |init| && init[j].Label? ensures |init[j].name| > 3 {
          assert init[j] == ks[j];
        }
      }
      FoldExercises(init);
      FoldCursor(init);
      LastLabelLong(init);
      CreditedSnoc(ks);
    }
  }

  /** Each set line adds at most one exercise, so there are never more exercises than sets. */
  lemma {:induction false} ExercisesAtMostSets(ks: seq<LineKind>)
    ensures |Fold(ks).exercises| <= Fold(ks).sets
  {
    if ks != [] {
      ExercisesAtMostSets(ks[..|ks| - 1]);
      var t := Fold(ks[..|ks| - 1]);
      if Truthy(t.current) {
        assert |t.exercises + {t.current.value}| <= |t.exercises| + 1;
      }
    }
  }

  /** The summary of the loop's final variables, stated without the loop. */
  lemma SummaryFold(ks: seq<LineKind>)
    requires LabelsLong(ks)
    ensures var rs := Records(ks);
            Summary(Fold(ks)) == Metrics(Round2(TotalVolume(rs)), |rs|, TotalReps(rs), |Credited(ks)|)
  {
    FoldTotals(ks);
    FoldExercises(ks);
  }

  /** The empty description splits into one blank line, which leaves every total at zero. */
  lemma EmptyDescription()
    ensures var ks := Kinds(Split([], '\n'));
            Records(ks) == [] && Credited(ks) == {}
  {
    assert Split([], '\n') == [[]];
    var ks := Kinds([[]]);
    assert ks == [Blank];
    assert ks[..0] == [];
  }

  /**
   * The returned dict, stated without the loop: the volume rounded to cents,
   * the number of set lines, their repetitions, and the number of distinct
   * exercise names credited with a set. This holds for the empty description
   * too, so the early return agrees with the loop.
   */
  lemma DescriptionMetricsSpec(text: string)
    ensures var ks := Kinds(Split(text, '\n'));
            var rs := Records(ks);
            DescriptionMetrics(Some(text))
            == Metrics(Round2(TotalVolume(rs)), |rs|, TotalReps(rs), |Credited(ks)|)
  {
    if text == [] {
      EmptyDescription();
      assert Round2(0.0) == 0.0;
    } else {
      var ks := Kinds(Split(text, '\n'));
      KindsLabelsLong(Split(text, '\n'));
      SummaryFold(ks);
    }
  }

  /** A line is a set line exactly when its stripped text parses, and it carries that record. */
  lemma ClassifyParsed(raw: string)
    ensures Classify(raw).Parsed? <==> ParseSetLine(Strip(raw)).Some?
    ensures Classify(raw).Parsed? ==> Classify(raw).record == ParseSetLine(Strip(raw)).value
  {
    if Strip(raw) == [] {
      assert FirstMatchFrom([], 0) == None;
    }
  }

  /**
   * The first test on an exercise name (no `\d+\s*[xX×]\s*\d+` anywhere)
   * is decided before it is made: it runs only on lines the set pattern did
   * not match, and every match of it is a match of the set pattern.
   */
  lemma ExerciseLabelUnguarded(line: string)
    requires ParseSetLine(line).None?
    ensures IsExerciseLabel(line)
            <==> && !StartsWith(Lower(line), "set ")
                 && !StartsWith(Lower(line), "logged with")
                 && !StartsWith(Lower(line), "rep ")
                 && |line| > 3
  {
    LabelGuardNeverFires(line);
  }

  /** Every set line's weight is at least zero, as `parse_set_line` guarantees. */
  ghost predicate WeightsNonNegative(ks: seq<LineKind>) {
    forall j :: 0 <= j < |ks| && ks[j].Parsed? ==> ks[j].record.weight >= 0.0
  }

  lemma KindsWeightsNonNegative(lines: seq<string>)
    ensures WeightsNonNegative(Kinds(lines))
  {
    forall j | 0 <= j < |lines| && Kinds(lines)[j].Parsed?
      ensures Kinds(lines)[j].record.weight >= 0.0
    {
      ClassifyParsed(lines[j]);
    }
  }

  lemma SetVolumeNonNegative(r: SetRecord)
    requires r.weight >= 0.0
    ensures SetVolume(r) >= 0.0
  {
  }

  /** With no negative weights the total volume is never negative. */
  lemma {:induction false} FoldVolumeNonNegative(ks: seq<LineKind>)
    requires WeightsNonNegative(ks)
    ensures Fold(ks).volume >= 0.0
  {
    if ks != [] {
      var init := ks[..|ks| - 1];
      assert WeightsNonNegative(init) by {
        forall j | 0 <= j < |init| && init[j].Parsed? ensures init[j].record.weight >= 0.0 {
          assert init[j] == ks[j];
        }
      }
      FoldVolumeNonNegative(init);
      if ks[|ks| - 1].Parsed? {
        SetVolumeNonNegative(ks[|ks| - 1].record);
      }
    }
  }

  /** Rounding a value that is at least zero gives a value that is at least zero. */
  lemma Round2NonNegative(x: real)
    requires x >= 0.0
    ensures Round2(x) >= 0.0
  {
    assert (x * 100.0).Floor >= 0;
  }

  /** The reported volume is never negative and the exercise count never exceeds the set count. */
  lemma DescriptionMetricsBounds(description: Option<string>)
    ensures DescriptionMetrics(description).totalVolumeLbs >= 0.0
    ensures DescriptionMetrics(description).exerciseCount <= DescriptionMetrics(description).totalSets
  {
    if description.Some? && description.value != [] {
      var lines := Split(description.value, '\n');
      KindsWeightsNonNegative(lines);
      FoldVolumeNonNegative(Kinds(lines));
      Round2NonNegative(Fold(Kinds(lines)).volume);
      ExercisesAtMostSets(Kinds(lines));
    }
  }
}
