/**
 * The unit splitter of utils/css/css.js. Its regular expression
 * `^([-.\d]+(?:\.\d+)?)(.*)$` is given two ways: declaratively, as the set of
 * ways the pattern can cut a string into its three parts, and operationally,
 * as a scan for the longest run of number characters. The scan is proved to
 * pick the match a backtracking engine returns first.
 */
module Css {
  import opened Js
  import opened Results
  import opened Strings

  /** The message of the `RangeError` raised when no number leads the string. */
  const NO_NUMBER_FOUND: string := "No number found"

  /** A value split into its number part and its unit. */
  datatype Split = Split(value: JsValue, unit: string)

  /** `\d`: an ASCII digit. */
  predicate IsDigit(c: char) {
    '0' <= c <= '9'
  }

  /** The character class `[-.\d]`. */
  predicate IsNumberChar(c: char) {
    c == '-' || c == '.' || IsDigit(c)
  }

  /** No line terminator occurs in `t`, so `.*` (no `s` flag) can consume all of it. */
  predicate NoLineTerminator(t: string) {
    forall k :: 0 <= k < |t| ==> !IsLineTerminator(t[k])
  }

  /**
   * The pattern accepts `s` cut as `s[..i]`, `s[i..j]`, `s[j..]`: a non-empty
   * run of `[-.\d]`, then either nothing or a dot and one or more digits
   * (`(?:\.\d+)?`), then characters other than line terminators up to the end
   * (`(.*)$`). Capture group 1 is `s[..j]`, group 2 is `s[j..]`.
   */
  ghost predicate Matches(s: string, i: int, j: int) {
    && 0 < i <= j <= |s|
    && (forall k :: 0 <= k < i ==> IsNumberChar(s[k]))
    && (j == i || (i + 2 <= j && s[i] == '.' && forall k :: i < k < j ==> IsDigit(s[k])))
    && NoLineTerminator(s[j..])
  }

  /** The length of the longest prefix of `s` made only of `-`, `.` and digits. */
  function NumberRunLength(s: string): (n: nat)
    ensures n <= |s|
    ensures forall k :: 0 <= k < n ==> IsNumberChar(s[k])
    ensures n < |s| ==> !IsNumberChar(s[n])
    decreases |s|
  {
    if s != [] && IsNumberChar(s[0]) then 1 + NumberRunLength(s[1..]) else 0
  }

  /** Every cut the pattern accepts ends its group 1 within the number run. */
  lemma MatchWithinRun(s: string, i: int, j: int)
    requires Matches(s, i, j)
    ensures j <= NumberRunLength(s)
    ensures Matches(s, NumberRunLength(s), NumberRunLength(s))
  {
    var n := NumberRunLength(s);
    forall k | 0 <= k < j ensures IsNumberChar(s[k]) {
      if k >= i {
        assert k == i || IsDigit(s[k]);
      }
    }
    forall k | 0 <= k < |s[n..]| ensures !IsLineTerminator(s[n..][k]) {
      assert s[n..][k] == s[j..][k + n - j];
    }
  }

  /** Some cut of `s` is accepted by the pattern. */
  ghost predicate HasMatch(s: string) {
    exists i, j :: Matches(s, i, j)
  }

  /**
   * The cut `(n, n)` is accepted and comes first in backtracking order: no
   * accepted cut has a longer `[-.\d]+`, and with the same run the optional
   * group matches nothing.
   */
  ghost predicate IsFirstMatch(s: string, n: int) {
    && Matches(s, n, n)
    && forall i, j :: Matches(s, i, j) ==> i <= n && (i == n ==> j == n)
  }

  /**
   * `v.match(NUMBER_WITH_UNIT_REGEXP)`, answering its two capture groups. A
   * match exists exactly when the pattern accepts some cut of `s`; the groups
   * come from the cut a backtracking engine tries first among those that
   * succeed. The optional group never adds anything: a dot after the run would
   * belong to the run.
   */
  function MatchNumberWithUnit(s: string): (m: Option<(string, string)>)
    ensures m.Some? <==> HasMatch(s)
    ensures m.Some? ==>
      && m.value.0 + m.value.1 == s
      && IsFirstMatch(s, |m.value.0|)
      && m.value.0 != []
      && forall k :: 0 <= k < |m.value.0| ==> IsNumberChar(m.value.0[k])
  {
    var n := NumberRunLength(s);
    if n > 0 && NoLineTerminator(s[n..]) then
      assert Matches(s, n, n);
      forall i, j | Matches(s, i, j) ensures i <= n && (i == n ==> j == n) {
        MatchWithinRun(s, i, j);
      }
      assert s[..n] + s[n..] == s;
      Some((s[..n], s[n..]))
    else
      assert !HasMatch(s) by {
        forall i, j | Matches(s, i, j) ensures false {
          MatchWithinRun(s, i, j);
        }
      }
      None
  }

  /** Characters of the number class are never stripped by `trim`. */
  lemma NumberCharNotTrimmed(c: char)
    requires IsNumberChar(c)
    ensures !IsTrimmed(c)
  {
  }

  /**
   * The shared non-blank path of `splitUnit` and of main.js `split_unit`: match
   * the regular expression, then trim both groups; the number group never has
   * anything to trim. Without a match the result is the `RangeError` message.
   */
  function SplitMatched(s: string): (r: Result<Split, string>)
    ensures r.Ok? <==> HasMatch(s)
    ensures r.Err? ==> r.error == NO_NUMBER_FOUND
    ensures r.Ok? ==>
      && r.value.value.Str?
      && r.value.value.s <= s
      && IsFirstMatch(s, |r.value.value.s|)
      && r.value.unit == Trim(s[|r.value.value.s|..])
  {
    var m := MatchNumberWithUnit(s);
    if m.None? then
      Err(NO_NUMBER_FOUND)
    else
      var number := m.value.0;
      NumberCharNotTrimmed(number[0]);
      NumberCharNotTrimmed(number[|number| - 1]);
      TrimIdentity(number);
      assert s[|number|..] == m.value.1;
      Ok(Split(Str(Trim(number)), Trim(m.value.1)))
  }

  /**
   * `splitUnit`: a blank or non-string value passes through with an empty unit;
   * otherwise the regular expression must match, the number part is group 1 and
   * the unit is group 2 trimmed; with no match the result is an error.
   */
  function SplitUnit(v: JsValue): (r: Result<Split, string>)
    ensures IsNullishOrEmptyOrWhitespace(v) ==> r == Ok(Split(v, ""))
    ensures !IsNullishOrEmptyOrWhitespace(v) ==> v.Str? && (r.Ok? <==> HasMatch(v.s))
    ensures r.Err? ==> r.error == NO_NUMBER_FOUND
    ensures r.Ok? && !IsNullishOrEmptyOrWhitespace(v) ==>
      && r.value.value.Str?
      && r.value.value.s <= v.s
      && IsFirstMatch(v.s, |r.value.value.s|)
      && r.value.unit == Trim(v.s[|r.value.value.s|..])
  {
    if IsNullishOrEmptyOrWhitespace(v) then
      Ok(Split(v, ""))
    else
      SplitMatched(v.s)
  }

  /** On success the number part is the longest run of `-`, `.` and digits leading the input, and it is not empty. */
  lemma SplitUnitTakesLongestRun(s: string)
    requires !IsNullishOrEmptyOrWhitespace(Str(s)) && SplitUnit(Str(s)).Ok?
    ensures SplitUnit(Str(s)).value.value == Str(s[..NumberRunLength(s)])
    ensures NumberRunLength(s) > 0
  {
    var p := SplitUnit(Str(s)).value.value.s;
    FirstMatchIsRun(s, p);
  }

  /** A first match ends its number part exactly where the run of number characters ends. */
  lemma FirstMatchIsRun(s: string, p: string)
    requires p <= s && IsFirstMatch(s, |p|)
    ensures p == s[..NumberRunLength(s)] && |p| > 0
  {
    MatchWithinRun(s, |p|, |p|);
  }

  /** On success the number part and the untrimmed rest rebuild the input, and the unit is that rest trimmed. */
  lemma SplitUnitRebuilds(s: string)
    requires !IsNullishOrEmptyOrWhitespace(Str(s)) && SplitUnit(Str(s)).Ok?
    ensures var sp := SplitUnit(Str(s)).value;
      var rest := s[|sp.value.s|..];
      && sp.value.s + rest == s
      && sp.unit == Trim(rest)
  {
    var p := SplitUnit(Str(s)).value.value.s;
    PrefixRebuilds(p, s);
  }

  /** A prefix followed by what remains after it is the whole string. */
  lemma PrefixRebuilds(p: string, s: string)
    requires p <= s
    ensures p + s[|p|..] == s
  {
  }

  /** A string that is not blank and does not start with `-`, `.` or a digit (a leading space included) has no number. */
  lemma SplitUnitNeedsLeadingNumber(s: string)
    requires !IsNullishOrEmptyOrWhitespace(Str(s))
    requires !IsNumberChar(s[0])
    ensures SplitUnit(Str(s)) == Err(NO_NUMBER_FOUND)
  {
    assert NumberRunLength(s) == 0;
    assert MatchNumberWithUnit(s) == None;
  }

  /** Two first matches of the same string coincide. */
  lemma FirstMatchUnique(s: string, a: int, b: int)
    requires IsFirstMatch(s, a) && IsFirstMatch(s, b)
    ensures a == b
  {
  }

  /** The split of a non-blank string is exactly the two groups of the match, the second trimmed. */
  lemma SplitMatchedGroups(s: string)
    ensures MatchNumberWithUnit(s).None? ==> SplitMatched(s) == Err(NO_NUMBER_FOUND)
    ensures MatchNumberWithUnit(s).Some? ==>
      var groups := MatchNumberWithUnit(s).value;
      SplitMatched(s) == Ok(Split(Str(groups.0), Trim(groups.1)))
  {
    var m := MatchNumberWithUnit(s);
    var r := SplitMatched(s);
    if m.Some? {
      var p := r.value.value.s;
      FirstMatchUnique(s, |p|, |m.value.0|);
      assert p == s[..|p|] == m.value.0;
      assert s[|p|..] == m.value.1;
    }
  }

  /** The scan stops before any line terminator and then refuses the rest. */
  lemma ScanRejectsLineTerminator(s: string, k: nat)
    requires k < |s| && IsLineTerminator(s[k])
    ensures MatchNumberWithUnit(s) == None
  {
    var n := NumberRunLength(s);
    assert k < n ==> IsNumberChar(s[k]);
    assert s[n..][k - n] == s[k];
    assert !NoLineTerminator(s[n..]);
  }

  /**
   * A string that is not blank and holds a line terminator anywhere has no
   * number: the terminator cannot be in the number run, and `.` does not match it.
   */
  lemma SplitUnitRejectsLineTerminator(s: string, k: nat)
    requires !IsNullishOrEmptyOrWhitespace(Str(s))
    requires k < |s| && IsLineTerminator(s[k])
    ensures SplitUnit(Str(s)) == Err(NO_NUMBER_FOUND)
  {
    ScanRejectsLineTerminator(s, k);
    SplitMatchedGroups(s);
  }

  /** A run of number characters followed by a non-number character is exactly the scanned run. */
  lemma {:induction false} RunOfNumberChars(number: string, unit: string)
    requires forall k :: 0 <= k < |number| ==> IsNumberChar(number[k])
    requires unit != [] ==> !IsNumberChar(unit[0])
    ensures NumberRunLength(number + unit) == |number|
    decreases |number|
  {
    if number == [] {
      assert number + unit == unit;
    } else {
      assert (number + unit)[1..] == number[1..] + unit;
      RunOfNumberChars(number[1..], unit);
    }
  }

  /**
   * Any non-empty run of `-`, `.` and digits, well formed as a number or not,
   * followed by a unit that starts with some other character, has no line
   * terminator and nothing to trim, splits into exactly that run and that unit.
   */
  lemma SplitUnitOfNumberAndUnit(number: string, unit: string)
    requires number != [] && forall k :: 0 <= k < |number| ==> IsNumberChar(number[k])
    requires unit != [] ==> !IsNumberChar(unit[0]) && !IsTrimmed(unit[0]) && !IsTrimmed(unit[|unit| - 1])
    requires NoLineTerminator(unit)
    ensures SplitUnit(Str(number + unit)) == Ok(Split(Str(number), unit))
  {
    var s := number + unit;
    RunOfNumberChars(number, unit);
    assert s[..|number|] == number && s[|number|..] == unit;
    NumberCharNotTrimmed(s[0]);
    SplitUnitOfGroups(s, number, unit);
  }

  /** A split whose groups are known: the unit needs no trimming, so it is group 2 itself. */
  lemma SplitUnitOfGroups(s: string, number: string, rest: string)
    requires s != [] && !IsTrimmed(s[0])
    requires MatchNumberWithUnit(s) == Some((number, rest))
    requires rest != [] ==> !IsTrimmed(rest[0]) && !IsTrimmed(rest[|rest| - 1])
    ensures SplitUnit(Str(s)) == Ok(Split(Str(number), rest))
  {
    TrimIdentity(rest);
    VisibleCharNotBlank(s, 0);
    SplitMatchedGroups(s);
  }

  /** The split does not check that the number is well formed: `1.2.3px` keeps all three groups of digits. */
  lemma SplitUnitRepeatedDots(a: char, b: char, c: char)
    requires IsDigit(a) && IsDigit(b) && IsDigit(c)
    ensures SplitUnit(Str([a, '.', b, '.', c, 'p', 'x'])) == Ok(Split(Str([a, '.', b, '.', c]), "px"))
  {
    assert [a, '.', b, '.', c, 'p', 'x'] == [a, '.', b, '.', c] + "px";
    SplitUnitOfNumberAndUnit([a, '.', b, '.', c], "px");
  }

  /** A doubled sign is accepted as a number part: `--5` has an empty unit. */
  lemma SplitUnitDoubledSign(d: char)
    requires IsDigit(d)
    ensures SplitUnit(Str(['-', '-', d])) == Ok(Split(Str(['-', '-', d]), ""))
  {
    assert ['-', '-', d] + "" == ['-', '-', d];
    SplitUnitOfNumberAndUnit(['-', '-', d], "");
  }

  /** A plain length such as `4px` splits into its digit and its unit. */
  lemma SplitUnitPlainLength(d: char)
    requires IsDigit(d)
    ensures SplitUnit(Str([d, 'p', 'x'])) == Ok(Split(Str([d]), "px"))
  {
    assert [d, 'p', 'x'] == [d] + "px";
    SplitUnitOfNumberAndUnit([d], "px");
  }
}
