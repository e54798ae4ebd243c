/**
 * The set-line recogniser `parse_set_line`. Its regular expression
 *
 *   number, optional fraction, optional unit word, separator x/X/U+00D7, integer
 *
 * is given twice: as a relation `IsSetMatch` that says which spans of a line
 * the pattern accepts, and as a greedy scanner `MatchAt` that finds one.
 * Because every piece of the pattern is followed by a character that cannot
 * continue the piece before it, greedy scanning never needs to backtrack; the
 * lemmas `MatchAtSound` and `MatchAtComplete` prove the scanner finds a
 * match exactly where the relation has one, with the same weight group and
 * the longest repetition group.
 */
module SetLine {
  import opened Wrappers
  import opened Text

  /** Pounds per kilogram, the factor `parse_set_line` multiplies by. */
  const KgToLbs: real := 2.20462

  /** One recognised set: the weight in pounds and the repetition count. */
  datatype SetRecord = SetRecord(weight: real, reps: nat)

  /** The separator class `[xX×]`. */
  predicate IsSep(c: char) {
    c == 'x' || c == 'X' || c == '\U{D7}'
  }

  /**
   * The unit alternation `lbs?|pounds?|kg|kilograms?`, case-sensitive, in the
   * order a backtracking matcher tries it (each optional `s` taken first).
   */
  const UnitWords: seq<string> := ["lbs", "lb", "pounds", "pound", "kg", "kilograms", "kilogram"]

  predicate IsUnit(w: string) {
    InList(w, UnitWords)
  }

  /** `w` is one of `ws`. */
  predicate InList(w: string, ws: seq<string>) {
    ws != [] && (ws[0] == w || InList(w, ws[1..]))
  }

  lemma {:induction false} InListIndex(w: string, ws: seq<string>)
    requires InList(w, ws)
    ensures exists n :: 0 <= n < |ws| && ws[n] == w
  {
    if ws[0] != w {
      InListIndex(w, ws[1..]);
      var n :| 0 <= n < |ws[1..]| && ws[1..][n] == w;
      assert ws[n + 1] == w;
    }
  }

  /**
   * The positions of one match of the pattern in a line: group 1 (the weight)
   * is `[start, fracEnd)` with the fraction `[intEnd, fracEnd)` when there is
   * one, the unit word is `[unitStart, unitEnd)`, the separator is at `sep`
   * and group 2 (the reps) is `[repsStart, repsEnd)`.
   */
  datatype SetSpan = SetSpan(start: nat, intEnd: nat, fracEnd: nat, unitStart: nat,
                             unitEnd: nat, sep: nat, repsStart: nat, repsEnd: nat)

  /** `p` is a span the pattern accepts in `s`. */
  ghost predicate IsSetMatch(s: string, p: SetSpan) {
    && p.start < p.intEnd <= p.fracEnd <= p.unitStart <= p.unitEnd <= p.sep
    && p.sep < p.repsStart < p.repsEnd <= |s|
    && AllIn(s, p.start, p.intEnd, Digits)
    && (p.fracEnd == p.intEnd
        || (p.intEnd + 1 < p.fracEnd && s[p.intEnd] == '.' && AllIn(s, p.intEnd + 1, p.fracEnd, Digits)))
    && AllIn(s, p.fracEnd, p.unitStart, Spaces)
    && (p.unitStart == p.unitEnd || IsUnit(s[p.unitStart..p.unitEnd]))
    && AllIn(s, p.unitEnd, p.sep, Spaces)
    && IsSep(s[p.sep])
    && AllIn(s, p.sep + 1, p.repsStart, Spaces)
    && AllIn(s, p.repsStart, p.repsEnd, Digits)
  }

  /** The end of the first of the words `ws` that occurs at `i`; `i` when none does. */
  function UnitEndFrom(s: string, i: nat, ws: seq<string>): (j: nat)
    requires i <= |s|
    ensures i <= j <= |s|
  {
    if ws == [] then i
    else if OccursAt(s, ws[0], i) then i + |ws[0]|
    else UnitEndFrom(s, i, ws[1..])
  }

  /** The end of the unit word at `i`, trying the alternatives in order; `i` when none is there. */
  function UnitEnd(s: string, i: nat): (j: nat)
    requires i <= |s|
    ensures i <= j <= |s|
  {
    UnitEndFrom(s, i, UnitWords)
  }

  lemma {:induction false} UnitEndFromIn(s: string, i: nat, ws: seq<string>)
    requires i <= |s|
    ensures UnitEndFrom(s, i, ws) == i || InList(s[i..UnitEndFrom(s, i, ws)], ws)
  {
    if ws != [] && !OccursAt(s, ws[0], i) {
      UnitEndFromIn(s, i, ws[1..]);
    }
  }

  lemma {:induction false} UnitEndFromFinds(s: string, a: nat, ws: seq<string>, n: nat)
    requires a <= |s| && n < |ws| && OccursAt(s, ws[n], a)
    requires forall m :: 0 <= m < n ==> !OccursAt(s, ws[m], a)
    ensures UnitEndFrom(s, a, ws) == a + |ws[n]|
  {
    if n > 0 {
      assert !OccursAt(s, ws[0], a);
      UnitEndFromFinds(s, a, ws[1..], n - 1);
    }
  }

  lemma {:induction false} UnitEndFromNone(s: string, a: nat, ws: seq<string>)
    requires a <= |s|
    requires forall m :: 0 <= m < |ws| ==> !OccursAt(s, ws[m], a)
    ensures UnitEndFrom(s, a, ws) == a
  {
    if ws != [] {
      assert !OccursAt(s, ws[0], a);
      UnitEndFromNone(s, a, ws[1..]);
    }
  }

  /** The end of the optional fraction `(?:\.\d+)?` after the integer part ending at `i`. */
  function FracEnd(s: string, i: nat): (j: nat)
    requires i <= |s|
    ensures i <= j <= |s|
  {
    if i + 1 < |s| && s[i] == '.' && IsDigit(s[i + 1]) then SkipWhile(s, i + 1, Digits) else i
  }

  predicate SepAt(s: string, i: nat) {
    i < |s| && IsSep(s[i])
  }

  /** The greedy scan of the pattern from index `i`. */
  function MatchAt(s: string, i: nat): (r: Option<SetSpan>)
    requires i <= |s|
    ensures r.Some? ==> r.value.start == i
    ensures r.Some? ==> r.value.start <= r.value.fracEnd <= r.value.repsStart <= r.value.repsEnd <= |s|
  {
    var intEnd := SkipWhile(s, i, Digits);
    var fracEnd := FracEnd(s, intEnd);
    var unitStart := SkipWhile(s, fracEnd, Spaces);
    var unitEnd := UnitEnd(s, unitStart);
    var sep := SkipWhile(s, unitEnd, Spaces);
    if intEnd == i || !SepAt(s, sep) then None
    else
      var repsStart := SkipWhile(s, sep + 1, Spaces);
      var repsEnd := SkipWhile(s, repsStart, Digits);
      if repsEnd == repsStart then None
      else Some(SetSpan(i, intEnd, fracEnd, unitStart, unitEnd, sep, repsStart, repsEnd))
  }

  /** `p` holds the positions the greedy scan from `p.start` stops at, and the scan succeeded. */
  ghost predicate IsScan(s: string, p: SetSpan) {
    && p.start < p.intEnd <= |s|
    && p.intEnd == SkipWhile(s, p.start, Digits)
    && p.fracEnd == FracEnd(s, p.intEnd)
    && p.unitStart == SkipWhile(s, p.fracEnd, Spaces)
    && p.unitEnd == UnitEnd(s, p.unitStart)
    && p.sep == SkipWhile(s, p.unitEnd, Spaces)
    && SepAt(s, p.sep)
    && p.repsStart == SkipWhile(s, p.sep + 1, Spaces)
    && p.repsEnd == SkipWhile(s, p.repsStart, Digits)
    && p.repsStart < p.repsEnd
  }

  lemma MatchAtScan(s: string, i: nat)
    requires i <= |s| && MatchAt(s, i).Some?
    ensures IsScan(s, MatchAt(s, i).value)
  {
  }

  /** What the scan finds is a span the pattern accepts. */
  lemma MatchAtSound(s: string, i: nat)
    requires i <= |s| && MatchAt(s, i).Some?
    ensures IsSetMatch(s, MatchAt(s, i).value)
  {
    MatchAtScan(s, i);
    ScanSound(s, MatchAt(s, i).value);
  }

  lemma ScanSound(s: string, p: SetSpan)
    requires IsScan(s, p)
    ensures IsSetMatch(s, p)
  {
    NumberSound(s, p.start, p.intEnd, p.fracEnd);
    UnitSound(s, p.fracEnd, p.unitStart, p.unitEnd, p.sep);
    SkipWhileSpec(s, p.sep + 1, Spaces);
    SkipWhileSpec(s, p.repsStart, Digits);
  }

  lemma UnitSound(s: string, a: nat, b: nat, c: nat, d: nat)
    requires a <= |s| && b == SkipWhile(s, a, Spaces) && c == UnitEnd(s, b) && d == SkipWhile(s, c, Spaces)
    ensures AllIn(s, a, b, Spaces) && AllIn(s, c, d, Spaces)
    ensures b == c || IsUnit(s[b..c])
  {
    SkipWhileSpec(s, a, Spaces);
    UnitEndFromIn(s, b, UnitWords);
    SkipWhileSpec(s, c, Spaces);
  }

  lemma NumberSound(s: string, a: nat, b: nat, c: nat)
    requires a <= |s| && b == SkipWhile(s, a, Digits) && c == FracEnd(s, b)
    ensures AllIn(s, a, b, Digits)
    ensures c == b || (b + 1 < c && s[b] == '.' && AllIn(s, b + 1, c, Digits))
  {
    SkipWhileSpec(s, a, Digits);
    if c > b {
      SkipWhileSpec(s, b + 1, Digits);
    }
  }

  /** Two words occurring at the same index agree on the shorter one's length. */
  lemma OccursAtBoth(s: string, v: string, w: string, a: nat)
    requires OccursAt(s, v, a) && OccursAt(s, w, a) && |w| <= |v|
    ensures v[..|w|] == w
    ensures |w| < |v| ==> s[a + |w|] == v[|w|]
  {
    assert forall m :: 0 <= m < |v| ==> s[a + m] == v[m];
    assert forall m :: 0 <= m < |w| ==> s[a + m] == w[m];
  }

  /**
   * The alternatives never shadow each other wrongly: an earlier word is never
   * a prefix of a later one, and a later word is a prefix of an earlier one
   * only when the earlier one adds a plural `s`.
   */
  lemma UnitWordsOrdered(m: nat, n: nat)
    requires m < n < |UnitWords|
    ensures !(|UnitWords[m]| <= |UnitWords[n]| && UnitWords[n][..|UnitWords[m]|] == UnitWords[m])
    ensures |UnitWords[n]| < |UnitWords[m]| && UnitWords[m][..|UnitWords[n]|] == UnitWords[n]
            ==> UnitWords[m][|UnitWords[n]|] == 's'
  {
    if m == 0 {
      if n == 1 {
      } else if n == 2 {
        assert UnitWords[m][0] != UnitWords[n][0];
      } else if n == 3 {
        assert UnitWords[m][0] != UnitWords[n][0];
      } else if n == 4 {
        assert UnitWords[m][0] != UnitWords[n][0];
      } else if n == 5 {
        assert UnitWords[m][0] != UnitWords[n][0];
      } else if n == 6 {
        assert UnitWords[m][0] != UnitWords[n][0];
      }
    } else if m == 1 {
      if n == 2 {
        assert UnitWords[m][0] != UnitWords[n][0];
      } else if n == 3 {
        assert UnitWords[m][0] != UnitWords[n][0];
      } else if n == 4 {
        assert UnitWords[m][0] != UnitWords[n][0];
      } else if n == 5 {
        assert UnitWords[m][0] != UnitWords[n][0];
      } else if n == 6 {
        assert UnitWords[m][0] != UnitWords[n][0];
      }
    } else if m == 2 {
      if n == 3 {
      } else if n == 4 {
        assert UnitWords[m][0] != UnitWords[n][0];
      } else if n == 5 {
        assert UnitWords[m][0] != UnitWords[n][0];
      } else if n == 6 {
        assert UnitWords[m][0] != UnitWords[n][0];
      }
    } else if m == 3 {
      if n == 4 {
        assert UnitWords[m][0] != UnitWords[n][0];
      } else if n == 5 {
        assert UnitWords[m][0] != UnitWords[n][0];
      } else if n == 6 {
        assert UnitWords[m][0] != UnitWords[n][0];
      }
    } else if m == 4 {
      if n == 5 {
        assert UnitWords[m][1] != UnitWords[n][1];
      } else if n == 6 {
        assert UnitWords[m][1] != UnitWords[n][1];
      }
    } else if m == 5 {
      if n == 6 {
      }
    }
  }

  /** A unit word is followed in a match by whitespace or the separator, so greedy choice finds it. */
  lemma UnitEndUnique(s: string, a: nat, b: nat)
    requires a <= b < |s| && IsUnit(s[a..b])
    requires IsSpace(s[b]) || IsSep(s[b])
    ensures UnitEnd(s, a) == b
  {
    var w := s[a..b];
    InListIndex(w, UnitWords);
    var n :| 0 <= n < |UnitWords| && UnitWords[n] == w;
    assert OccursAt(s, w, a);
    forall m | 0 <= m < n ensures !OccursAt(s, UnitWords[m], a) {
      var v := UnitWords[m];
      UnitWordsOrdered(m, n);
      if OccursAt(s, v, a) {
        if |w| < |v| {
          OccursAtBoth(s, v, w, a);
        } else {
          OccursAtBoth(s, w, v, a);
        }
      }
    }
    UnitEndFromFinds(s, a, UnitWords, n);
  }

  /** No unit word begins with a separator or a whitespace character. */
  lemma NoUnitAt(s: string, a: nat)
    requires a < |s| && (IsSep(s[a]) || IsSpace(s[a]))
    ensures UnitEnd(s, a) == a
  {
    forall m | 0 <= m < |UnitWords| ensures !OccursAt(s, UnitWords[m], a) {
      assert UnitWords[m][0] in "lpk";
    }
    UnitEndFromNone(s, a, UnitWords);
  }

  /** Every unit word starts with `l`, `p` or `k`. */
  lemma UnitInitial(w: string)
    requires IsUnit(w)
    ensures |w| > 0 && w[0] in "lpk"
  {
    InListIndex(w, UnitWords);
  }

  /** The character just after group 1 of a match is neither a digit nor a `.`. */
  lemma AfterWeight(s: string, p: SetSpan)
    requires IsSetMatch(s, p)
    ensures !IsDigit(s[p.fracEnd]) && s[p.fracEnd] != '.'
  {
    if p.fracEnd == p.unitStart && p.unitStart < p.unitEnd {
      UnitInitial(s[p.unitStart..p.unitEnd]);
      assert s[p.unitStart..p.unitEnd][0] == s[p.fracEnd];
    }
  }

  /**
   * Wherever the pattern accepts a span, the greedy scan from its start
   * succeeds with the same group 1 and a group 2 that is at least as long:
   * the scan finds the span Python's backtracking matcher reports.
   */
  lemma MatchAtComplete(s: string, p: SetSpan)
    requires IsSetMatch(s, p)
    ensures MatchAt(s, p.start).Some?
    ensures MatchAt(s, p.start).value.intEnd == p.intEnd
    ensures MatchAt(s, p.start).value.fracEnd == p.fracEnd
    ensures MatchAt(s, p.start).value.repsStart == p.repsStart
    ensures MatchAt(s, p.start).value.repsEnd >= p.repsEnd
  {
    NumberComplete(s, p);
    UnitComplete(s, p);
    RepsComplete(s, p);
    var unitStart := SkipWhile(s, p.fracEnd, Spaces);
    var q := SetSpan(p.start, p.intEnd, p.fracEnd, unitStart, UnitEnd(s, unitStart),
                     p.sep, p.repsStart, SkipWhile(s, p.repsStart, Digits));
    assert IsScan(s, q);
    ScanIsMatchAt(s, q);
  }

  /** A successful scan is what `MatchAt` returns from its start. */
  lemma ScanIsMatchAt(s: string, q: SetSpan)
    requires IsScan(s, q)
    ensures MatchAt(s, q.start) == Some(q)
  {
  }

  lemma NumberComplete(s: string, p: SetSpan)
    requires IsSetMatch(s, p)
    ensures SkipWhile(s, p.start, Digits) == p.intEnd
    ensures FracEnd(s, p.intEnd) == p.fracEnd
  {
    AfterWeight(s, p);
    SkipWhileUnique(s, p.start, p.intEnd, Digits);
    if p.fracEnd > p.intEnd {
      SkipWhileUnique(s, p.intEnd + 1, p.fracEnd, Digits);
    }
  }

  lemma UnitComplete(s: string, p: SetSpan)
    requires IsSetMatch(s, p)
    ensures SkipWhile(s, UnitEnd(s, SkipWhile(s, p.fracEnd, Spaces)), Spaces) == p.sep
  {
    if p.unitStart < p.unitEnd {
      UnitInitial(s[p.unitStart..p.unitEnd]);
      assert s[p.unitStart..p.unitEnd][0] == s[p.unitStart];
      SkipWhileUnique(s, p.fracEnd, p.unitStart, Spaces);
      assert IsSpace(s[p.unitEnd]) || IsSep(s[p.unitEnd]);
      UnitEndUnique(s, p.unitStart, p.unitEnd);
      SkipWhileUnique(s, p.unitEnd, p.sep, Spaces);
    } else {
      AllInJoin(s, p.fracEnd, p.unitStart, p.sep, Spaces);
      SkipWhileUnique(s, p.fracEnd, p.sep, Spaces);
      NoUnitAt(s, p.sep);
      SkipWhileUnique(s, p.sep, p.sep, Spaces);
    }
  }

  lemma RepsComplete(s: string, p: SetSpan)
    requires IsSetMatch(s, p)
    ensures SkipWhile(s, p.sep + 1, Spaces) == p.repsStart
    ensures SkipWhile(s, p.repsStart, Digits) >= p.repsEnd
  {
    SkipWhileUnique(s, p.sep + 1, p.repsStart, Spaces);
    SkipWhileCovers(s, p.repsStart, p.repsEnd, Digits);
  }

  /** The leftmost index at or after `i` where the scan succeeds: `re.search`. */
  function FirstMatchFrom(s: string, i: nat): (r: Option<nat>)
    requires i <= |s|
    ensures r.Some? ==> i <= r.value < |s| && MatchAt(s, r.value).Some?
    decreases |s| - i
  {
    if i == |s| then None
    else if MatchAt(s, i).Some? then Some(i)
    else FirstMatchFrom(s, i + 1)
  }

  /** The scan fails at every index before the one `FirstMatchFrom` reports, or at every index when it reports none. */
  lemma {:induction false} FirstMatchFromFirst(s: string, i: nat, k: nat)
    requires i <= k < |s| && MatchAt(s, k).Some?
    ensures FirstMatchFrom(s, i).Some? && FirstMatchFrom(s, i).value <= k
    decreases |s| - i
  {
    if MatchAt(s, i).None? {
      FirstMatchFromFirst(s, i + 1, k);
    }
  }

  /** The text of group 1 and of group 2 (the weight and the reps). */
  function WeightText(s: string, p: SetSpan): string
    requires p.start <= p.fracEnd <= |s|
  {
    s[p.start..p.fracEnd]
  }

  function RepsText(s: string, p: SetSpan): string
    requires p.repsStart <= p.repsEnd <= |s|
  {
    s[p.repsStart..p.repsEnd]
  }

  /** Python's `float()` of a digit string with an optional `.` and fraction, as an exact value. */
  function DecimalValue(t: string): (v: real)
    ensures v >= 0.0
  {
    var k := IndexOf(t, '.', 0);
    NatValue(t[..k]) as real + if k == |t| then 0.0 else FractionValue(t[k + 1..])
  }

  /** The value of the digits `ds` written after a decimal point. */
  function FractionValue(ds: string): (v: real)
    ensures 0.0 <= v <= 1.0
  {
    if ds == [] then 0.0 else (DigitValue(ds[0]) as real + FractionValue(ds[1..])) / 10.0
  }

  /** The digits after a decimal point are worth their integer value over the power of ten of their count. */
  lemma {:induction false} FractionValueSpec(ds: string)
    ensures FractionValue(ds) == NatValue(ds) as real / Pow10(|ds|) as real
    decreases |ds|
  {
    if ds != [] {
      var rest := ds[1..];
      FractionValueSpec(rest);
      assert ds == [ds[0]] + rest;
      NatValueCons(ds[0], rest);
      FractionStep(DigitValue(ds[0]), Pow10(|rest|), NatValue(rest));
    }
  }

  lemma FractionStep(a: nat, p: nat, n: nat)
    requires p >= 1
    ensures (a as real + n as real / p as real) / 10.0 == (a * p + n) as real / (10 * p) as real
  {
    var q := p as real;
    assert (a * p + n) as real == a as real * q + n as real;
    assert (10 * p) as real == 10.0 * q;
    assert (a as real + n as real / q) / 10.0 == (a as real * q + n as real) / (10.0 * q);
  }

  /** `float()` of a string of digits is its integer value. */
  lemma DecimalValueWhole(i: string)
    requires forall m :: 0 <= m < |i| ==> IsDigit(i[m])
    ensures DecimalValue(i) == NatValue(i) as real
  {
    IndexOfFirst(i, '.', 0);
    assert i[..|i|] == i;
  }

  /** In `i.f` with `i` all digits, the first point is the one after `i`. */
  lemma PointAfterDigits(i: string, f: string)
    requires forall m :: 0 <= m < |i| ==> IsDigit(i[m])
    ensures IndexOf(i + "." + f, '.', 0) == |i|
  {
    var t := i + "." + f;
    IndexOfFirst(t, '.', 0);
    assert t[|i|] == '.';
  }

  /** `float()` of `i.f` with `i` all digits: the value of `i` plus the value of the fraction `f`. */
  lemma DecimalValuePoint(i: string, f: string)
    requires forall m :: 0 <= m < |i| ==> IsDigit(i[m])
    ensures DecimalValue(i + "." + f) == NatValue(i) as real + FractionValue(f)
  {
    var t := i + "." + f;
    PointAfterDigits(i, f);
    assert t[..|i|] == i && t[|i| + 1..] == f;
  }

  /** The exact value of the numeral `i.f`: `i + f / 10^|f|`. */
  function PointValue(i: string, f: string): real {
    NatValue(i) as real + NatValue(f) as real / Pow10(|f|) as real
  }

  /** `float()` of `i.f`, both digit strings, is `i + f / 10^|f|`. */
  lemma DecimalValueFraction(i: string, f: string)
    requires forall m :: 0 <= m < |i| ==> IsDigit(i[m])
    ensures DecimalValue(i + "." + f) == PointValue(i, f)
  {
    DecimalValuePoint(i, f);
    FractionValueSpec(f);
  }

  /** The whole line, lower-cased, mentions kilograms: `'kg' in l or 'kilogram' in l`. */
  predicate MentionsKg(line: string) {
    Contains(Lower(line), "kg") || Contains(Lower(line), "kilogram")
  }

  /** The record of a match whose groups have the texts `weight` and `reps`: kg lines are converted. */
  function RecordFrom(line: string, weight: string, reps: string): (r: SetRecord)
    ensures r.weight >= 0.0
  {
    var w := DecimalValue(weight);
    SetRecord(if MentionsKg(line) then w * KgToLbs else w, NatValue(reps))
  }

  function RecordOf(line: string, p: SetSpan): SetRecord
    requires p.start <= p.fracEnd <= |line| && p.repsStart <= p.repsEnd <= |line|
  {
    RecordFrom(line, WeightText(line, p), RepsText(line, p))
  }

  /** `parse_set_line`: the record of the leftmost match, or `None`. */
  function ParseSetLine(line: string): (r: Option<SetRecord>)
    ensures r.Some? ==> r.value.weight >= 0.0
  {
    match FirstMatchFrom(line, 0)
    case None => None
    case Some(k) => Some(RecordOf(line, MatchAt(line, k).value))
  }

  /** The match `re.search` reports: leftmost start, and the longest group 2 there. */
  ghost predicate IsSearchMatch(s: string, p: SetSpan) {
    && IsSetMatch(s, p)
    && (forall q :: IsSetMatch(s, q) ==> p.start <= q.start)
    && (forall q :: IsSetMatch(s, q) && q.start == p.start ==> q.repsEnd <= p.repsEnd)
  }

  /** `parse_set_line` gives `None` exactly when the pattern matches nowhere in the line. */
  lemma ParseSetLineNone(line: string)
    ensures ParseSetLine(line).None? <==> forall q :: !IsSetMatch(line, q)
  {
    if ParseSetLine(line).None? {
      forall q | IsSetMatch(line, q) ensures false {
        MatchAtComplete(line, q);
        FirstMatchFromFirst(line, 0, q.start);
      }
    } else {
      MatchAtSound(line, FirstMatchFrom(line, 0).value);
    }
  }

  /** For the match `re.search` reports, `parse_set_line` returns that match's record. */
  lemma ParseSetLineIsSearch(line: string, p: SetSpan)
    requires IsSearchMatch(line, p)
    ensures ParseSetLine(line) == Some(RecordOf(line, p))
  {
    SearchFindsSpan(line, p);
  }

  /** The scan's leftmost match has the groups of the match `re.search` reports. */
  lemma SearchFindsSpan(line: string, p: SetSpan)
    requires IsSearchMatch(line, p)
    ensures FirstMatchFrom(line, 0) == Some(p.start)
    ensures WeightText(line, MatchAt(line, p.start).value) == WeightText(line, p)
    ensures RepsText(line, MatchAt(line, p.start).value) == RepsText(line, p)
  {
    SearchFindsStart(line, p);
    MatchAtComplete(line, p);
    MatchAtSound(line, p.start);
  }

  /** The scan's leftmost success is at the start of the leftmost match. */
  lemma SearchFindsStart(line: string, p: SetSpan)
    requires IsSearchMatch(line, p)
    ensures FirstMatchFrom(line, 0) == Some(p.start)
  {
    MatchAtComplete(line, p);
    FirstMatchFromFirst(line, 0, p.start);
    var k := FirstMatchFrom(line, 0).value;
    MatchAtSound(line, k);
  }

  /** When `parse_set_line` succeeds there is such a match, and the result is its record. */
  lemma ParseSetLineFound(line: string)
    requires ParseSetLine(line).Some?
    ensures exists p :: IsSearchMatch(line, p) && ParseSetLine(line) == Some(RecordOf(line, p))
  {
    var k := FirstMatchFrom(line, 0).value;
    var g := MatchAt(line, k).value;
    MatchAtSound(line, k);
    forall q | IsSetMatch(line, q)
      ensures g.start <= q.start
      ensures q.start == g.start ==> q.repsEnd <= g.repsEnd
    {
      MatchAtComplete(line, q);
      FirstMatchFromFirst(line, 0, q.start);
    }
    assert IsSearchMatch(line, g);
  }

  /** `a` and `b` differ only where both hold a separator character. */
  ghost predicate SameUpToSeparators(a: string, b: string) {
    |a| == |b| && forall m :: 0 <= m < |a| ==> a[m] == b[m] || (IsSep(a[m]) && IsSep(b[m]))
  }

  lemma SkipWhileSame(a: string, b: string, i: nat, k: CharClass)
    requires SameUpToSeparators(a, b) && i <= |a|
    ensures SkipWhile(a, i, k) == SkipWhile(b, i, k)
    decreases |a| - i
  {
    if i < |a| {
      SkipWhileSame(a, b, i + 1, k);
    }
  }

  /** A word none of whose characters differs between `a` and `b` occurs in both or in neither. */
  lemma OccursAtSame(a: string, b: string, w: string, j: int)
    requires |a| == |b|
    requires forall m :: 0 <= m < |a| && a[m] != b[m] ==> a[m] !in w && b[m] !in w
    ensures OccursAt(a, w, j) <==> OccursAt(b, w, j)
  {
    if OccursAt(a, w, j) {
      assert forall m :: 0 <= m < |w| ==> a[j + m] == w[m];
      assert forall m :: 0 <= m < |w| ==> b[j + m] == w[m] by {
        forall m | 0 <= m < |w| ensures b[j + m] == w[m] {
          assert a[j + m] in w;
        }
      }
      assert b[j..j + |w|] == w;
    }
    if OccursAt(b, w, j) {
      assert forall m :: 0 <= m < |w| ==> b[j + m] == w[m];
      assert forall m :: 0 <= m < |w| ==> a[j + m] == w[m] by {
        forall m | 0 <= m < |w| ensures a[j + m] == w[m] {
          assert b[j + m] in w;
        }
      }
      assert a[j..j + |w|] == w;
    }
  }

  lemma {:induction false} UnitEndFromSame(a: string, b: string, j: nat, ws: seq<string>)
    requires SameUpToSeparators(a, b) && j <= |a|
    requires forall m :: 0 <= m < |ws| ==> forall c :: c in ws[m] ==> !IsSep(c)
    ensures UnitEndFrom(a, j, ws) == UnitEndFrom(b, j, ws)
  {
    if ws != [] {
      OccursAtSame(a, b, ws[0], j);
      UnitEndFromSame(a, b, j, ws[1..]);
    }
  }

  lemma MatchAtSame(a: string, b: string, i: nat)
    requires SameUpToSeparators(a, b) && i <= |a|
    ensures MatchAt(a, i) == MatchAt(b, i)
  {
    var intEnd := SkipWhile(a, i, Digits);
    var fracEnd := FracEnd(a, intEnd);
    NumberSame(a, b, i);
    var unitStart := SkipWhile(a, fracEnd, Spaces);
    var unitEnd := UnitEnd(a, unitStart);
    var sep := SkipWhile(a, unitEnd, Spaces);
    UnitSame(a, b, fracEnd);
    assert SepAt(a, sep) == SepAt(b, sep);
    if SepAt(a, sep) {
      SkipWhileSame(a, b, sep + 1, Spaces);
      SkipWhileSame(a, b, SkipWhile(a, sep + 1, Spaces), Digits);
    }
  }

  lemma NumberSame(a: string, b: string, i: nat)
    requires SameUpToSeparators(a, b) && i <= |a|
    ensures SkipWhile(a, i, Digits) == SkipWhile(b, i, Digits)
    ensures FracEnd(a, SkipWhile(a, i, Digits)) == FracEnd(b, SkipWhile(a, i, Digits))
  {
    var intEnd := SkipWhile(a, i, Digits);
    SkipWhileSame(a, b, i, Digits);
    if intEnd + 1 < |a| {
      SkipWhileSame(a, b, intEnd + 1, Digits);
    }
  }

  lemma UnitSame(a: string, b: string, j: nat)
    requires SameUpToSeparators(a, b) && j <= |a|
    ensures SkipWhile(a, j, Spaces) == SkipWhile(b, j, Spaces)
    ensures UnitEnd(a, SkipWhile(a, j, Spaces)) == UnitEnd(b, SkipWhile(a, j, Spaces))
    ensures SkipWhile(a, UnitEnd(a, SkipWhile(a, j, Spaces)), Spaces)
         == SkipWhile(b, UnitEnd(a, SkipWhile(a, j, Spaces)), Spaces)
  {
    SkipWhileSame(a, b, j, Spaces);
    UnitEndFromSame(a, b, SkipWhile(a, j, Spaces), UnitWords);
    SkipWhileSame(a, b, UnitEnd(a, SkipWhile(a, j, Spaces)), Spaces);
  }

  lemma FirstMatchFromSame(a: string, b: string, i: nat)
    requires SameUpToSeparators(a, b) && i <= |a|
    ensures FirstMatchFrom(a, i) == FirstMatchFrom(b, i)
    decreases |a| - i
  {
    MatchAtSame(a, b, i);
    if i < |a| {
      FirstMatchFromSame(a, b, i + 1);
    }
  }

  lemma MentionsKgSame(a: string, b: string)
    requires SameUpToSeparators(a, b)
    ensures MentionsKg(a) == MentionsKg(b)
  {
    var la, lb := Lower(a), Lower(b);
    LowerAt(a);
    LowerAt(b);
    ContainsSpec(la, "kg");
    ContainsSpec(lb, "kg");
    ContainsSpec(la, "kilogram");
    ContainsSpec(lb, "kilogram");
    forall k | true ensures OccursAt(la, "kg", k) <==> OccursAt(lb, "kg", k) {
      OccursAtSame(la, lb, "kg", k);
    }
    forall k | true ensures OccursAt(la, "kilogram", k) <==> OccursAt(lb, "kilogram", k) {
      OccursAtSame(la, lb, "kilogram", k);
    }
  }

  /**
   * Only `x`, `X` and U+00D7 act as the separator, and they are
   * interchangeable: replacing any of them by another anywhere in a line
   * leaves the result of `parse_set_line` unchanged.
   */
  lemma ParseSetLineSeparatorBlind(a: string, b: string)
    requires SameUpToSeparators(a, b)
    ensures ParseSetLine(a) == ParseSetLine(b)
  {
    FirstMatchFromSame(a, b, 0);
    MentionsKgSame(a, b);
    var k := FirstMatchFrom(a, 0);
    if k.Some? {
      MatchAtSame(a, b, k.value);
      var p := MatchAt(a, k.value).value;
      MatchAtSound(a, k.value);
      GroupsSame(a, b, p);
      RecordFromSame(a, b, WeightText(a, p), RepsText(a, p));
    }
  }

  /** The groups of a match hold digits and `.`, which no separator replaces. */
  lemma GroupsSame(a: string, b: string, p: SetSpan)
    requires SameUpToSeparators(a, b) && IsSetMatch(a, p)
    ensures WeightText(a, p) == WeightText(b, p) && RepsText(a, p) == RepsText(b, p)
  {
    forall m | p.start <= m < p.fracEnd ensures a[m] == b[m] {
      if m < p.intEnd {
        AllInAt(a, p.start, p.intEnd, Digits, m);
      } else if m > p.intEnd {
        AllInAt(a, p.intEnd + 1, p.fracEnd, Digits, m);
      }
    }
    forall m | p.repsStart <= m < p.repsEnd ensures a[m] == b[m] {
      AllInAt(a, p.repsStart, p.repsEnd, Digits, m);
    }
  }

  lemma RecordFromSame(a: string, b: string, weight: string, reps: string)
    requires MentionsKg(a) == MentionsKg(b)
    ensures RecordFrom(a, weight, reps) == RecordFrom(b, weight, reps)
  {
  }

  /** The positions of one match of the label guard `\d+\s*[xX×]\s*\d+`. */
  datatype GuardSpan = GuardSpan(start: nat, digitsEnd: nat, sep: nat, repsStart: nat, repsEnd: nat)

  ghost predicate IsGuardMatch(s: string, q: GuardSpan) {
    && q.start < q.digitsEnd <= q.sep < q.repsStart < q.repsEnd <= |s|
    && AllIn(s, q.start, q.digitsEnd, Digits)
    && AllIn(s, q.digitsEnd, q.sep, Spaces)
    && IsSep(s[q.sep])
    && AllIn(s, q.sep + 1, q.repsStart, Spaces)
    && AllIn(s, q.repsStart, q.repsEnd, Digits)
  }

  /** The greedy scan of the label guard from index `i`. */
  function GuardAt(s: string, i: nat): bool
    requires i <= |s|
  {
    var j := SkipWhile(s, i, Digits);
    var t := SkipWhile(s, j, Spaces);
    j > i && t < |s| && IsSep(s[t]) && SkipWhile(s, t + 1, Spaces) < |s| && IsDigit(s[SkipWhile(s, t + 1, Spaces)])
  }

  /** Where the guard's scan succeeds, the guard pattern matches from there. */
  lemma GuardAtSound(s: string, i: nat)
    requires i <= |s| && GuardAt(s, i)
    ensures exists q: GuardSpan :: q.start == i && IsGuardMatch(s, q)
  {
    var j := SkipWhile(s, i, Digits);
    var t := SkipWhile(s, j, Spaces);
    var u := SkipWhile(s, t + 1, Spaces);
    SkipWhileSpec(s, i, Digits);
    SkipWhileSpec(s, j, Spaces);
    SkipWhileSpec(s, t + 1, Spaces);
    assert IsGuardMatch(s, GuardSpan(i, j, t, u, u + 1));
  }

  /** `re.search` of the label guard from index `i`. */
  function GuardFrom(s: string, i: nat): bool
    requires i <= |s|
    decreases |s| - i
  {
    i < |s| && (GuardAt(s, i) || GuardFrom(s, i + 1))
  }

  lemma {:induction false} GuardFromSound(s: string, i: nat)
    requires i <= |s| && GuardFrom(s, i)
    ensures exists q :: IsGuardMatch(s, q)
    decreases |s| - i
  {
    if GuardAt(s, i) {
      GuardAtSound(s, i);
    } else {
      GuardFromSound(s, i + 1);
    }
  }

  /** Python's `re.search(r'\d+\s*[xX×]\s*\d+', line)` is truthy. */
  predicate HasBareSetPattern(line: string) {
    GuardFrom(line, 0)
  }

  /** Every match of the label guard is a match of the set pattern with no fraction and no unit. */
  lemma GuardMatchIsSetMatch(s: string, q: GuardSpan)
    requires IsGuardMatch(s, q)
    ensures IsSetMatch(s, SetSpan(q.start, q.digitsEnd, q.digitsEnd, q.sep, q.sep, q.sep, q.repsStart, q.repsEnd))
  {
  }

  /** Where the guard pattern matches, the guard's greedy scan from the match's start succeeds. */
  lemma GuardAtComplete(s: string, q: GuardSpan)
    requires IsGuardMatch(s, q)
    ensures GuardAt(s, q.start)
  {
    var p := SetSpan(q.start, q.digitsEnd, q.digitsEnd, q.sep, q.sep, q.sep, q.repsStart, q.repsEnd);
    GuardMatchIsSetMatch(s, q);
    NumberComplete(s, p);
    SkipWhileUnique(s, q.digitsEnd, q.sep, Spaces);
    RepsComplete(s, p);
    AllInAt(s, q.repsStart, q.repsEnd, Digits, q.repsStart);
  }

  lemma {:induction false} GuardFromComplete(s: string, i: nat, q: GuardSpan)
    requires i <= q.start && IsGuardMatch(s, q)
    ensures GuardFrom(s, i)
    decreases q.start - i
  {
    if i == q.start {
      GuardAtComplete(s, q);
    } else {
      GuardFromComplete(s, i + 1, q);
    }
  }

  /** `HasBareSetPattern` holds exactly when the guard pattern matches somewhere in the line. */
  lemma HasBareSetPatternSpec(line: string)
    ensures HasBareSetPattern(line) <==> exists q :: IsGuardMatch(line, q)
  {
    if HasBareSetPattern(line) {
      GuardFromSound(line, 0);
    }
    if exists q :: IsGuardMatch(line, q) {
      var q :| IsGuardMatch(line, q);
      GuardFromComplete(line, 0, q);
    }
  }

  /**
   * The label guard of `parse_weight_training_description` is evaluated only
   * after `parse_set_line` has failed, and there it is always false.
   */
  lemma LabelGuardNeverFires(line: string)
    requires ParseSetLine(line).None?
    ensures forall q :: !IsGuardMatch(line, q)
    ensures !HasBareSetPattern(line)
  {
    ParseSetLineNone(line);
    forall q | IsGuardMatch(line, q) ensures false {
      GuardMatchIsSetMatch(line, q);
    }
    HasBareSetPatternSpec(line);
  }
}
