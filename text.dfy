/**
 * The pieces of Python's string library that the parser relies on, written
 * out over `seq<char>`: the character classes behind the regular-expression
 * escapes `\d` and `\s`, `int()` of a digit string, `str.lower()`, the `in`
 * substring test, `str.startswith`, `str.strip()` and `str.split('\n')`.
 * Digits are the ASCII digits; whitespace is what `str.isspace()` accepts
 * within U+0000-U+00FF; lower-casing maps ASCII `A`-`Z` only.
 */
module Text {

  predicate IsDigit(c: char) {
    '0' <= c <= '9'
  }

  /**
   * Python's whitespace (`\s` in a str pattern, and what `str.strip()`
   * removes), Latin-1 part: TAB, LF, VT, FF, CR, the four separators
   * U+001C-U+001F, SPACE, NEL (U+0085) and NO-BREAK SPACE (U+00A0).
   */
  predicate IsSpace(c: char) {
    ('\t' <= c <= '\r') || ('\U{1C}' <= c <= ' ') || c == '\U{85}' || c == '\U{A0}'
  }

  /** The two character classes a greedy `\d+` or `\s*` runs over. */
  datatype CharClass = Digits | Spaces

  predicate InClass(c: char, k: CharClass) {
    match k
    case Digits => IsDigit(c)
    case Spaces => IsSpace(c)
  }

  /** Every character of `s[i..j]` is in class `k`. */
  predicate AllIn(s: string, i: nat, j: nat, k: CharClass)
    decreases j - i
  {
    i <= j <= |s| && (i == j || (InClass(s[i], k) && AllIn(s, i + 1, j, k)))
  }

  lemma {:induction false} AllInAt(s: string, i: nat, j: nat, k: CharClass, m: nat)
    requires AllIn(s, i, j, k) && i <= m < j
    ensures InClass(s[m], k)
    decreases j - i
  {
    if i < m {
      AllInAt(s, i + 1, j, k, m);
    }
  }

  lemma {:induction false} AllInJoin(s: string, i: nat, j: nat, l: nat, k: CharClass)
    requires AllIn(s, i, j, k) && AllIn(s, j, l, k)
    ensures AllIn(s, i, l, k)
    decreases j - i
  {
    if i < j {
      AllInJoin(s, i + 1, j, l, k);
    }
  }

  /** `AllIn` holds of a range whose every character is in class `k`. */
  lemma {:induction false} AllInEvery(s: string, i: nat, j: nat, k: CharClass)
    requires i <= j <= |s|
    requires forall m :: i <= m < j ==> InClass(s[m], k)
    ensures AllIn(s, i, j, k)
    decreases j - i
  {
    if i < j {
      AllInEvery(s, i + 1, j, k);
    }
  }

  /** The end of the longest run of class-`k` characters that starts at `i`. */
  function SkipWhile(s: string, i: nat, k: CharClass): (j: nat)
    requires i <= |s|
    ensures i <= j <= |s|
    decreases |s| - i
  {
    if i < |s| && InClass(s[i], k) then SkipWhile(s, i + 1, k) else i
  }

  /** `SkipWhile` stops at the first character outside class `k`, having passed only class-`k` ones. */
  lemma {:induction false} SkipWhileSpec(s: string, i: nat, k: CharClass)
    requires i <= |s|
    ensures AllIn(s, i, SkipWhile(s, i, k), k)
    ensures SkipWhile(s, i, k) == |s| || !InClass(s[SkipWhile(s, i, k)], k)
    decreases |s| - i
  {
    if i < |s| && InClass(s[i], k) {
      SkipWhileSpec(s, i + 1, k);
    }
  }

  /** A run of class-`k` characters that cannot be extended is the one `SkipWhile` finds. */
  lemma {:induction false} SkipWhileUnique(s: string, i: nat, j: nat, k: CharClass)
    requires AllIn(s, i, j, k)
    requires j == |s| || !InClass(s[j], k)
    ensures SkipWhile(s, i, k) == j
    decreases j - i
  {
    if i < j {
      SkipWhileUnique(s, i + 1, j, k);
    }
  }

  /** `SkipWhile` does not stop inside a run of class-`k` characters. */
  lemma {:induction false} SkipWhileCovers(s: string, i: nat, j: nat, k: CharClass)
    requires AllIn(s, i, j, k)
    ensures SkipWhile(s, i, k) >= j
    decreases j - i
  {
    if i < j {
      SkipWhileCovers(s, i + 1, j, k);
    }
  }

  function Pow10(n: nat): (p: nat)
    ensures p >= 1
  {
    if n == 0 then 1 else 10 * Pow10(n - 1)
  }

  function DigitValue(c: char): (d: nat)
    ensures d <= 9
  {
    if IsDigit(c) then c as int - '0' as int else 0
  }

  /** The value Python's `int()` gives a string of decimal digits. */
  function NatValue(ds: string): (n: nat)
    ensures n < Pow10(|ds|)
  {
    if ds == [] then 0 else NatValue(ds[..|ds| - 1]) * 10 + DigitValue(ds[|ds| - 1])
  }

  /** A leading digit adds its value times the power of ten of the digits after it. */
  lemma {:induction false} NatValueCons(c: char, ds: string)
    ensures NatValue([c] + ds) == DigitValue(c) * Pow10(|ds|) + NatValue(ds)
    decreases |ds|
  {
    var x := [c] + ds;
    if ds == [] {
      assert x[..0] == [];
    } else {
      var init := ds[..|ds| - 1];
      assert x[..|x| - 1] == [c] + init;
      assert x[|x| - 1] == ds[|ds| - 1];
      NatValueCons(c, init);
      var a, p, n, l := DigitValue(c), Pow10(|init|), NatValue(init), DigitValue(ds[|ds| - 1]);
      assert NatValue(x) == (a * p + n) * 10 + l;
      ShiftDigit(a, p, n, l);
    }
  }

  lemma ShiftDigit(a: int, p: int, n: int, l: int)
    ensures (a * p + n) * 10 + l == a * (10 * p) + (n * 10 + l)
  {
  }

  function LowerChar(c: char): char {
    if 'A' <= c <= 'Z' then (c as int + 32) as char else c
  }

  /** `str.lower()`, restricted to ASCII letters. */
  function Lower(s: string): (r: string)
    ensures |r| == |s|
  {
    seq(|s|, i requires 0 <= i < |s| => LowerChar(s[i]))
  }

  lemma LowerAt(s: string)
    ensures forall i :: 0 <= i < |s| ==> Lower(s)[i] == LowerChar(s[i])
  {
  }

  /** `w` occurs in `s` starting at index `k`. */
  predicate OccursAt(s: string, w: string, k: int) {
    0 <= k && k + |w| <= |s| && s[k..k + |w|] == w
  }

  function ContainsFrom(s: string, w: string, i: nat): bool
    decreases |s| - i
  {
    if i + |w| > |s| then false
    else if s[i..i + |w|] == w then true
    else ContainsFrom(s, w, i + 1)
  }

  /** `ContainsFrom` finds an occurrence of `w` at or after `i` exactly when there is one. */
  lemma {:induction false} ContainsFromSpec(s: string, w: string, i: nat)
    ensures ContainsFrom(s, w, i) <==> exists k :: i <= k && OccursAt(s, w, k)
    decreases |s| - i
  {
    if i + |w| > |s| {
    } else if s[i..i + |w|] == w {
      assert OccursAt(s, w, i);
    } else {
      ContainsFromSpec(s, w, i + 1);
      if exists k :: i <= k && OccursAt(s, w, k) {
        var k :| i <= k && OccursAt(s, w, k);
        assert k != i;
      }
    }
  }

  /** Python's `w in s` for two strings. */
  function Contains(s: string, w: string): bool {
    ContainsFrom(s, w, 0)
  }

  lemma ContainsSpec(s: string, w: string)
    ensures Contains(s, w) <==> exists k :: OccursAt(s, w, k)
  {
    ContainsFromSpec(s, w, 0);
  }

  /** Python's `s.startswith(p)`. */
  predicate StartsWith(s: string, p: string) {
    |p| <= |s| && s[..|p|] == p
  }

  /** `s` with its trailing whitespace removed. */
  function TrimEnd(s: string): (r: string)
    ensures |r| <= |s|
  {
    if s != [] && IsSpace(s[|s| - 1]) then TrimEnd(s[..|s| - 1]) else s
  }

  /** `TrimEnd` removes a suffix of whitespace and stops at a non-space character. */
  lemma {:induction false} TrimEndSpec(s: string)
    ensures TrimEnd(s) == s[..|TrimEnd(s)|]
    ensures forall m :: |TrimEnd(s)| <= m < |s| ==> IsSpace(s[m])
    ensures TrimEnd(s) == [] || !IsSpace(s[|TrimEnd(s)| - 1])
  {
    if s != [] && IsSpace(s[|s| - 1]) {
      var init := s[..|s| - 1];
      TrimEndSpec(init);
      assert init[..|TrimEnd(init)|] == s[..|TrimEnd(init)|];
    }
  }

  /**
   * Python's `s.strip()`: the slice of `s` left once every leading and every
   * trailing whitespace character is removed.
   */
  function Strip(s: string): string {
    TrimEnd(s[SkipWhile(s, 0, Spaces)..])
  }

  lemma StripSpec(s: string)
    ensures exists a, b :: StripsTo(s, a, b) && Strip(s) == s[a..b]
    ensures Strip(s) == [] || (!IsSpace(Strip(s)[0]) && !IsSpace(Strip(s)[|Strip(s)| - 1]))
  {
    var a := SkipWhile(s, 0, Spaces);
    SkipWhileSpec(s, 0, Spaces);
    var r := TrimEnd(s[a..]);
    TrimEndSpec(s[a..]);
    assert StripsTo(s, a, a + |r|) by {
      forall m | 0 <= m < a ensures IsSpace(s[m]) {
        AllInAt(s, 0, a, Spaces, m);
      }
      forall m | a + |r| <= m < |s| ensures IsSpace(s[m]) {
        assert s[m] == s[a..][m - a];
      }
    }
    assert r == s[a..a + |r|];
  }

  /** `s[a..b]` is `s` with whitespace, and only whitespace, removed from both ends. */
  ghost predicate StripsTo(s: string, a: int, b: int) {
    && 0 <= a <= b <= |s|
    && (forall m :: 0 <= m < a ==> IsSpace(s[m]))
    && (forall m :: b <= m < |s| ==> IsSpace(s[m]))
  }

  /** The index of the first `c` in `s`, if any. */
  function IndexOf(s: string, c: char, i: nat): (k: nat)
    requires i <= |s|
    ensures i <= k <= |s|
    ensures k < |s| ==> s[k] == c
    decreases |s| - i
  {
    if i == |s| || s[i] == c then i else IndexOf(s, c, i + 1)
  }

  /** `IndexOf` passes over no `c`. */
  lemma {:induction false} IndexOfFirst(s: string, c: char, i: nat)
    requires i <= |s|
    ensures forall m :: i <= m < IndexOf(s, c, i) ==> s[m] != c
    decreases |s| - i
  {
    if i < |s| && s[i] != c {
      IndexOfFirst(s, c, i + 1);
    }
  }

  /** Python's `s.split(sep)` for a one-character separator. */
  function Split(s: string, sep: char): (r: seq<string>)
    ensures |r| >= 1
    decreases |s|
  {
    var k := IndexOf(s, sep, 0);
    if k == |s| then [s] else [s[..k]] + Split(s[k + 1..], sep)
  }

  /** No piece of `Split` holds the separator. */
  lemma {:induction false} SplitPieces(s: string, sep: char)
    ensures forall k :: 0 <= k < |Split(s, sep)| ==> sep !in Split(s, sep)[k]
    decreases |s|
  {
    var k := IndexOf(s, sep, 0);
    IndexOfFirst(s, sep, 0);
    var r := Split(s, sep);
    assert sep !in s[..k] by {
      forall m | 0 <= m < k ensures s[..k][m] != sep {
        assert s[..k][m] == s[m];
      }
    }
    if k < |s| {
      SplitPieces(s[k + 1..], sep);
      assert r[1..] == Split(s[k + 1..], sep);
      forall j | 0 < j < |r| ensures sep !in r[j] {
        assert r[j] == Split(s[k + 1..], sep)[j - 1];
      }
    }
  }

  /** Joining the pieces of `Split` with the separator gives back the string. */
  lemma {:induction false} SplitJoin(s: string, sep: char)
    ensures Join(Split(s, sep), sep) == s
    decreases |s|
  {
    var k := IndexOf(s, sep, 0);
    if k < |s| {
      SplitJoin(s[k + 1..], sep);
      assert s == s[..k] + [sep] + s[k + 1..];
      assert Split(s, sep)[1..] == Split(s[k + 1..], sep);
    }
  }

  /** Python's `sep.join(r)`, the inverse of `Split`. */
  function Join(r: seq<string>, sep: char): string {
    if r == [] then []
    else if |r| == 1 then r[0]
    else r[0] + [sep] + Join(r[1..], sep)
  }
}
