/**
 * Set lines in the shape the parser's unit tests use, `<weight> <unit> x
 * <reps>`, and lines with no set in them.
 */
module Cases {
  import opened Wrappers
  import opened Text
  import opened SetLine

  /** A line without a digit has no set in it. */
  lemma NoDigitNoSet(line: string)
    requires forall i :: 0 <= i < |line| ==> !IsDigit(line[i])
    ensures ParseSetLine(line) == None
  {
    ParseSetLineNone(line);
    forall q | IsSetMatch(line, q) ensures false {
      AllInAt(line, q.start, q.intEnd, Digits, q.start);
    }
  }

  lemma EmptyLine()
    ensures ParseSetLine("") == None
  {
  }

  lemma ExerciseName()
    ensures ParseSetLine("Exercise Name") == None
  {
    NoDigitNoSet("Exercise Name");
  }

  predicate AllDigits(t: string) {
    forall i :: 0 <= i < |t| ==> IsDigit(t[i])
  }

  /** A string of digits and decimal points. */
  predicate IsNumeral(t: string) {
    forall i :: 0 <= i < |t| ==> IsDigit(t[i]) || t[i] == '.'
  }

  /** The unit words that name kilograms. */
  predicate IsKgUnit(u: string) {
    u == "kg" || u == "kilogram" || u == "kilograms"
  }

  /** `<weight> <unit> x <reps>`, the unit possibly empty. */
  function SetLineText(w: string, u: string, r: string): string {
    w + " " + u + " x " + r
  }

  /** The span the pattern matches in `SetLineText(w, u, r)`. */
  function SetLineSpan(w: string, u: string, r: string): SetSpan {
    var c := |w| + 1 + |u|;
    SetSpan(0, |w|, |w|, |w| + 1, c, c + 1, c + 3, c + 3 + |r|)
  }

  /** After the weight `w`: a space, the unit, ` x ` and the digits of the reps. */
  lemma SetLineTail(w: string, u: string, r: string)
    requires AllDigits(r)
    ensures var s := SetLineText(w, u, r);
            var a, c := |w|, |w| + 1 + |u|;
            && AllIn(s, a, a + 1, Spaces) && s[a + 1..c] == u && AllIn(s, c, c + 1, Spaces)
            && IsSep(s[c + 1]) && AllIn(s, c + 2, c + 3, Spaces) && AllIn(s, c + 3, |s|, Digits)
            && s[..a] == w && s[c + 3..] == r
  {
    var s := SetLineText(w, u, r);
    var a, c := |w|, |w| + 1 + |u|;
    forall m | c + 3 <= m < |s| ensures InClass(s[m], Digits) {
      SetLineChars(w, u, r, m);
    }
    forall m | m in {a, c, c + 2} ensures InClass(s[m], Spaces) {
      SetLineChars(w, u, r, m);
    }
    SetLineChars(w, u, r, c + 1);
    AllInEvery(s, c + 3, |s|, Digits);
    AllInEvery(s, a, a + 1, Spaces);
    AllInEvery(s, c, c + 1, Spaces);
    AllInEvery(s, c + 2, c + 3, Spaces);
    assert s[a + 1..c] == u;
    assert s[..a] == w;
    assert s[c + 3..] == r;
  }

  lemma SetLineMatches(w: string, u: string, r: string)
    requires w != [] && r != [] && AllDigits(w) && AllDigits(r)
    requires u == [] || IsUnit(u)
    ensures IsSetMatch(SetLineText(w, u, r), SetLineSpan(w, u, r))
    ensures WeightText(SetLineText(w, u, r), SetLineSpan(w, u, r)) == w
    ensures RepsText(SetLineText(w, u, r), SetLineSpan(w, u, r)) == r
  {
    var s := SetLineText(w, u, r);
    SetLineTail(w, u, r);
    forall m | 0 <= m < |w| ensures InClass(s[m], Digits) {
      SetLineChars(w, u, r, m);
    }
    AllInEvery(s, 0, |w|, Digits);
  }

  /** The match at index 0 that runs to the end of the line is the one `re.search` reports. */
  lemma SetLineSearch(w: string, u: string, r: string)
    requires w != [] && r != [] && AllDigits(w) && AllDigits(r)
    requires u == [] || IsUnit(u)
    ensures ParseSetLine(SetLineText(w, u, r)) == Some(RecordFrom(SetLineText(w, u, r), w, r))
  {
    var s, p := SetLineText(w, u, r), SetLineSpan(w, u, r);
    SetLineMatches(w, u, r);
    assert IsSearchMatch(s, p);
    ParseSetLineIsSearch(s, p);
  }

  /** A line that mentions kilograms holds a `k` or a `K`. */
  lemma MentionsKgHasK(line: string)
    ensures MentionsKg(line) ==> exists m :: 0 <= m < |line| && LowerChar(line[m]) == 'k'
  {
    var l := Lower(line);
    LowerAt(line);
    ContainsSpec(l, "kg");
    ContainsSpec(l, "kilogram");
    if MentionsKg(line) {
      var v :| v in ["kg", "kilogram"] && exists k :: OccursAt(l, v, k);
      var k :| OccursAt(l, v, k);
      assert l[k] == l[k..k + |v|][0];
      assert LowerChar(line[k]) == 'k';
    }
  }

  /** The characters of `SetLineText(w, u, r)` outside the unit. */
  lemma SetLineChars(w: string, u: string, r: string, m: nat)
    requires m < |SetLineText(w, u, r)|
    ensures var s := SetLineText(w, u, r);
            var c := |w| + 1 + |u|;
            && (m < |w| ==> s[m] == w[m])
            && (m == |w| || m == c || m == c + 2 ==> s[m] == ' ')
            && (m == c + 1 ==> s[m] == 'x')
            && (|w| < m < c ==> s[m] == u[m - |w| - 1])
            && (c + 3 <= m ==> s[m] == r[m - c - 3])
  {
  }

  /** The unit words are written in lower-case letters, and only the kilogram ones hold a `k`. */
  lemma UnitLetters(u: string)
    requires IsUnit(u)
    ensures forall j :: 0 <= j < |u| ==> 'a' <= u[j] <= 'z'
    ensures !IsKgUnit(u) ==> forall j :: 0 <= j < |u| ==> u[j] != 'k'
  {
    InListIndex(u, UnitWords);
  }

  /** Lower-casing the line leaves a lower-case unit as it is. */
  lemma LowerUnit(w: string, u: string, r: string)
    requires forall j :: 0 <= j < |u| ==> 'a' <= u[j] <= 'z'
    ensures OccursAt(Lower(SetLineText(w, u, r)), u, |w| + 1)
  {
    var s := SetLineText(w, u, r);
    var b := |w| + 1;
    LowerAt(s);
    forall m | 0 <= m < |u| ensures Lower(s)[b + m] == u[m] {
      SetLineChars(w, u, r, b + m);
    }
    assert Lower(s)[b..b + |u|] == u;
  }

  /** A kilogram unit makes the line mention kilograms. */
  lemma SetLineKgUnit(w: string, u: string, r: string)
    requires IsKgUnit(u)
    ensures MentionsKg(SetLineText(w, u, r))
  {
    var l := Lower(SetLineText(w, u, r));
    var b := |w| + 1;
    LowerUnit(w, u, r);
    if u == "kg" {
      ContainsSpec(l, "kg");
    } else {
      assert l[b..b + 8] == u[..8] == "kilogram";
      assert OccursAt(l, "kilogram", b);
      ContainsSpec(l, "kilogram");
    }
  }

  /** With any other unit, or none, nothing in the line mentions kilograms. */
  lemma SetLineNoKgUnit(w: string, u: string, r: string)
    requires IsNumeral(w) && AllDigits(r)
    requires u == [] || (IsUnit(u) && !IsKgUnit(u))
    ensures !MentionsKg(SetLineText(w, u, r))
  {
    var s := SetLineText(w, u, r);
    if u != [] {
      UnitLetters(u);
    }
    forall m | 0 <= m < |s| ensures LowerChar(s[m]) != 'k' {
      SetLineChars(w, u, r, m);
    }
    MentionsKgHasK(s);
  }

  /** Only the unit of such a line can mention kilograms. */
  lemma SetLineKg(w: string, u: string, r: string)
    requires IsNumeral(w) && AllDigits(r)
    requires u == [] || IsUnit(u)
    ensures MentionsKg(SetLineText(w, u, r)) <==> IsKgUnit(u)
  {
    if IsKgUnit(u) {
      SetLineKgUnit(w, u, r);
    } else {
      SetLineNoKgUnit(w, u, r);
    }
  }

  /** The record read off `<weight> <unit> x <reps>`. */
  lemma SetLineRecordFrom(w: string, u: string, r: string)
    requires AllDigits(w) && AllDigits(r)
    requires u == [] || IsUnit(u)
    ensures RecordFrom(SetLineText(w, u, r), w, r)
            == SetRecord(if IsKgUnit(u) then NatValue(w) as real * KgToLbs else NatValue(w) as real, NatValue(r))
  {
    assert IsNumeral(w);
    SetLineKg(w, u, r);
    assert w[..|w|] == w;
    assert IndexOf(w, '.', 0) == |w|;
  }

  /**
   * `<weight> <unit> x <reps>` gives the weight, converted to pounds when the
   * unit names kilograms, and the reps.
   */
  lemma SetLineRecord(w: string, u: string, r: string)
    requires w != [] && r != [] && AllDigits(w) && AllDigits(r)
    requires u == [] || IsUnit(u)
    ensures ParseSetLine(SetLineText(w, u, r))
            == Some(SetRecord(if IsKgUnit(u) then NatValue(w) as real * KgToLbs else NatValue(w) as real,
                              NatValue(r)))
  {
    SetLineSearch(w, u, r);
    SetLineRecordFrom(w, u, r);
  }

  /** The characters of the numeral `i.f`. */
  lemma PointChars(i: string, f: string, m: nat)
    requires m < |i + "." + f|
    ensures var w := i + "." + f;
            && (m < |i| ==> w[m] == i[m])
            && (m == |i| ==> w[m] == '.')
            && (|i| < m ==> w[m] == f[m - |i| - 1])
  {
  }

  /** The span the pattern matches in `<int>.<frac> <unit> x <reps>`: group 1 holds the fraction. */
  function PointLineSpan(i: string, f: string, u: string, r: string): SetSpan {
    var w := i + "." + f;
    var c := |w| + 1 + |u|;
    SetSpan(0, |i|, |w|, |w| + 1, c, c + 1, c + 3, c + 3 + |r|)
  }

  /** The weight `i.f` at the start of the line: digits, a point, digits. */
  lemma PointLineHead(i: string, f: string, u: string, r: string)
    requires AllDigits(i) && AllDigits(f)
    ensures var s, w := SetLineText(i + "." + f, u, r), i + "." + f;
            AllIn(s, 0, |i|, Digits) && s[|i|] == '.' && AllIn(s, |i| + 1, |w|, Digits)
  {
    var w := i + "." + f;
    var s := SetLineText(w, u, r);
    forall m | 0 <= m < |w| ensures m != |i| ==> InClass(s[m], Digits) {
      SetLineChars(w, u, r, m);
      PointChars(i, f, m);
    }
    SetLineChars(w, u, r, |i|);
    PointChars(i, f, |i|);
    AllInEvery(s, 0, |i|, Digits);
    AllInEvery(s, |i| + 1, |w|, Digits);
  }

  lemma PointLineMatches(i: string, f: string, u: string, r: string)
    requires i != [] && f != [] && r != [] && AllDigits(i) && AllDigits(f) && AllDigits(r)
    requires u == [] || IsUnit(u)
    ensures IsSetMatch(SetLineText(i + "." + f, u, r), PointLineSpan(i, f, u, r))
    ensures WeightText(SetLineText(i + "." + f, u, r), PointLineSpan(i, f, u, r)) == i + "." + f
    ensures RepsText(SetLineText(i + "." + f, u, r), PointLineSpan(i, f, u, r)) == r
  {
    SetLineTail(i + "." + f, u, r);
    PointLineHead(i, f, u, r);
  }

  /** The whole-line match of `<int>.<frac> <unit> x <reps>` is the one `re.search` reports. */
  lemma PointLineSearch(i: string, f: string, u: string, r: string)
    requires i != [] && f != [] && r != [] && AllDigits(i) && AllDigits(f) && AllDigits(r)
    requires u == [] || IsUnit(u)
    ensures ParseSetLine(SetLineText(i + "." + f, u, r))
            == Some(RecordFrom(SetLineText(i + "." + f, u, r), i + "." + f, r))
  {
    var s, p := SetLineText(i + "." + f, u, r), PointLineSpan(i, f, u, r);
    PointLineMatches(i, f, u, r);
    assert IsSearchMatch(s, p);
    ParseSetLineIsSearch(s, p);
  }

  /** The record read off `<numeral> <unit> x <reps>`: kilograms exactly for the kilogram units. */
  lemma NumeralLineRecordFrom(w: string, u: string, r: string)
    requires IsNumeral(w) && AllDigits(r)
    requires u == [] || IsUnit(u)
    ensures RecordFrom(SetLineText(w, u, r), w, r)
            == SetRecord(if IsKgUnit(u) then DecimalValue(w) * KgToLbs else DecimalValue(w), NatValue(r))
  {
    SetLineKg(w, u, r);
  }

  /** The numeral `i.f` holds only digits and its point. */
  lemma PointNumeral(i: string, f: string)
    requires AllDigits(i) && AllDigits(f)
    ensures IsNumeral(i + "." + f)
  {
    forall m | 0 <= m < |i + "." + f| ensures IsDigit((i + "." + f)[m]) || (i + "." + f)[m] == '.' {
      PointChars(i, f, m);
    }
  }

  /** The record read off `<int>.<frac> <unit> x <reps>`. */
  lemma PointLineRecordFrom(i: string, f: string, u: string, r: string)
    requires AllDigits(i) && AllDigits(f) && AllDigits(r)
    requires u == [] || IsUnit(u)
    ensures RecordFrom(SetLineText(i + "." + f, u, r), i + "." + f, r)
            == SetRecord(if IsKgUnit(u) then PointValue(i, f) * KgToLbs else PointValue(i, f), NatValue(r))
  {
    PointNumeral(i, f);
    NumeralLineRecordFrom(i + "." + f, u, r);
    DecimalValueFraction(i, f);
  }

  /**
   * `<int>.<frac> <unit> x <reps>` gives the exact decimal weight, converted
   * to pounds when the unit names kilograms, and the reps.
   */
  lemma PointLineRecord(i: string, f: string, u: string, r: string)
    requires i != [] && f != [] && r != [] && AllDigits(i) && AllDigits(f) && AllDigits(r)
    requires u == [] || IsUnit(u)
    ensures ParseSetLine(SetLineText(i + "." + f, u, r))
            == Some(SetRecord(if IsKgUnit(u) then PointValue(i, f) * KgToLbs else PointValue(i, f), NatValue(r)))
  {
    PointLineSearch(i, f, u, r);
    PointLineRecordFrom(i, f, u, r);
  }

  /** `<weight> x <reps>` with one space on each side of the separator and no unit. */
  function BareLineText(w: string, r: string): string {
    w + " x " + r
  }

  /** The span the pattern matches in `BareLineText(w, r)`: the unit is empty. */
  function BareLineSpan(w: string, r: string): SetSpan {
    var a := |w|;
    SetSpan(0, a, a, a + 1, a + 1, a + 1, a + 3, a + 3 + |r|)
  }

  /** The characters of `BareLineText(w, r)`. */
  lemma BareLineChars(w: string, r: string, m: nat)
    requires m < |BareLineText(w, r)|
    ensures var s, a := BareLineText(w, r), |w|;
            && (m < a ==> s[m] == w[m])
            && (m == a || m == a + 2 ==> s[m] == ' ')
            && (m == a + 1 ==> s[m] == 'x')
            && (a + 3 <= m ==> s[m] == r[m - a - 3])
  {
  }

  lemma BareLineMatches(w: string, r: string)
    requires w != [] && r != [] && AllDigits(w) && AllDigits(r)
    ensures IsSetMatch(BareLineText(w, r), BareLineSpan(w, r))
    ensures WeightText(BareLineText(w, r), BareLineSpan(w, r)) == w
    ensures RepsText(BareLineText(w, r), BareLineSpan(w, r)) == r
  {
    var s, a := BareLineText(w, r), |w|;
    forall m | 0 <= m < |s| && !(a <= m < a + 3) ensures InClass(s[m], Digits) {
      BareLineChars(w, r, m);
    }
    BareLineChars(w, r, a);
    BareLineChars(w, r, a + 1);
    BareLineChars(w, r, a + 2);
    AllInEvery(s, 0, a, Digits);
    AllInEvery(s, a, a + 1, Spaces);
    AllInEvery(s, a + 2, a + 3, Spaces);
    AllInEvery(s, a + 3, |s|, Digits);
    assert s[..a] == w;
    assert s[a + 3..] == r;
  }

  /** The whole-line match of `<weight> x <reps>` is the one `re.search` reports. */
  lemma BareLineSearch(w: string, r: string)
    requires w != [] && r != [] && AllDigits(w) && AllDigits(r)
    ensures ParseSetLine(BareLineText(w, r)) == Some(RecordFrom(BareLineText(w, r), w, r))
  {
    var s, p := BareLineText(w, r), BareLineSpan(w, r);
    BareLineMatches(w, r);
    assert IsSearchMatch(s, p);
    ParseSetLineIsSearch(s, p);
  }

  /** Nothing in `<weight> x <reps>` mentions kilograms, so the weight is read as pounds. */
  lemma BareLineRecordFrom(w: string, r: string)
    requires AllDigits(w) && AllDigits(r)
    ensures RecordFrom(BareLineText(w, r), w, r) == SetRecord(NatValue(w) as real, NatValue(r))
  {
    var s := BareLineText(w, r);
    forall m | 0 <= m < |s| ensures LowerChar(s[m]) != 'k' {
      BareLineChars(w, r, m);
    }
    MentionsKgHasK(s);
    DecimalValueWhole(w);
  }

  /** `<weight> x <reps>`, with no unit, gives the weight in pounds and the reps. */
  lemma BareLineRecord(w: string, r: string)
    requires w != [] && r != [] && AllDigits(w) && AllDigits(r)
    ensures ParseSetLine(BareLineText(w, r)) == Some(SetRecord(NatValue(w) as real, NatValue(r)))
  {
    BareLineSearch(w, r);
    BareLineRecordFrom(w, r);
  }
}
