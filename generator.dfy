/**
 * The spacing stylesheet generator of main.js: every spacing entry is split
 * into number and unit, checked against the allowed units, and expanded into
 * one rule per prefix of the padding family and then of the margin family.
 */
module Generator {
  import opened Js
  import opened Results
  import opened Css

  /**
   * What the generator borrows from the JavaScript host: `Number(...)` on the
   * split value, the number-to-text conversion of template strings, and the
   * platform line separator `EOL`.
   */
  datatype Host = Host(toNumber: JsValue -> Num, numText: Num -> string, eol: string)

  /** A property family: class-name prefixes with their CSS property, in table order. */
  type Family = seq<(string, string)>

  /** A spacing entry of the configuration: its key and its raw value. */
  type Entry = (string, JsValue)

  const ALLOWED_UNITS: seq<string> := ["rem", "px", "em"]

  const PADDING: Family := [
    ("p", "padding"),
    ("pt", "padding-top"),
    ("pb", "padding-bottom"),
    ("pl", "padding-left"),
    ("pr", "padding-right"),
    ("pin", "padding-inline"),
    ("pbl", "padding-block")
  ]

  const MARGIN: Family := [
    ("m", "margin"),
    ("mt", "margin-top"),
    ("mb", "margin-bottom"),
    ("ml", "margin-left"),
    ("mr", "margin-right"),
    ("min", "margin-inline"),
    ("mbl", "margin-block")
  ]

  const SPACING_PROPERTIES: seq<Family> := [PADDING, MARGIN]

  /**
   * `split_unit`: only a non-empty string is matched, so unlike `splitUnit` a
   * string of white space alone is an error (the source throws a `RangeError`).
   */
  function SplitUnitStrict(v: JsValue): (r: Result<Split, string>)
    ensures !(v.Str? && v.s != []) ==> r == Ok(Split(v, ""))
    ensures v.Str? && v.s != [] ==> (r.Ok? <==> HasMatch(v.s))
    ensures r.Err? ==> r.error == NO_NUMBER_FOUND
    ensures v.Str? && v.s != [] && r.Ok? ==>
      && r.value.value.Str?
      && r.value.value.s <= v.s
      && IsFirstMatch(v.s, |r.value.value.s|)
      && r.value.unit == Trim(v.s[|r.value.value.s|..])
  {
    if v.Str? && v.s != [] then SplitMatched(v.s) else Ok(Split(v, ""))
  }

  /**
   * The two splitters agree on every value except a non-empty string made only
   * of white space, which `splitUnit` passes through and `split_unit` rejects.
   */
  lemma SplitUnitsAgree(v: JsValue)
    ensures v.Str? && v.s != [] && Strings.IsNullishOrEmptyOrWhitespace(v) ==>
      SplitUnitStrict(v) == Err(NO_NUMBER_FOUND) && SplitUnit(v) == Ok(Split(v, ""))
    ensures !(v.Str? && v.s != [] && Strings.IsNullishOrEmptyOrWhitespace(v)) ==>
      SplitUnitStrict(v) == SplitUnit(v)
  {
    if v.Str? && v.s != [] && Strings.IsNullishOrEmptyOrWhitespace(v) {
      assert IsNumberChar(v.s[0]) ==> !IsTrimmed(v.s[0]) by {
        if IsNumberChar(v.s[0]) {
          NumberCharNotTrimmed(v.s[0]);
        }
      }
      assert NumberRunLength(v.s) == 0;
      SplitMatchedGroups(v.s);
    }
  }

  /** A unit is accepted when it is one of `rem`, `px`, `em`, or when the number is zero and has no unit. */
  function UnitAllowed(num: Num, unit: string): (b: bool)
    ensures b <==> unit == "rem" || unit == "px" || unit == "em" || (num == Finite(0.0) && unit == "")
  {
    var isValueZeroAndUnitless := num == Finite(0.0) && unit == "";
    var hasAllowedUnit := unit in ALLOWED_UNITS;
    hasAllowedUnit || isValueZeroAndUnitless
  }

  /** The message logged for a unit that is not accepted. */
  function InvalidUnitMessage(unit: string): (m: string)
    ensures |m| == |unit| + 20
    ensures m[..19] == "Invalid CSS unit: \"" && m[19..|m| - 1] == unit && m[|m| - 1] == '"'
  {
    "Invalid CSS unit: \"" + unit + "\""
  }

  /** One CSS rule: `.{prefix}-{spacer} {EOL\t{property}: {text};EOL}`. */
  function Rule(prefix: string, spacer: string, property: string, text: string, eol: string): (r: string)
    ensures "." + prefix + "-" + spacer + " {" <= r
    ensures |r| == |prefix| + |spacer| + |property| + |text| + 2 * |eol| + 9
    ensures r[|r| - |eol| - 2..] == ";" + eol + "}"
  {
    "." + prefix + "-" + spacer + " {" + eol + "\t" + property + ": " + text + ";" + eol + "}"
  }

  /** `generate`: one rule per prefix of the family, in table order. */
  function Generate(family: Family, spacer: string, num: Num, unit: string, host: Host): (r: seq<string>)
    ensures |r| == |family|
    ensures forall p :: 0 <= p < |family| ==>
      r[p] == Rule(family[p].0, spacer, family[p].1, host.numText(num) + unit, host.eol)
  {
    if family == [] then
      []
    else
      [Rule(family[0].0, spacer, family[0].1, host.numText(num) + unit, host.eol)]
        + Generate(family[1..], spacer, num, unit, host)
  }

  /** The rules one spacing entry yields for a family, or the split's error. */
  function EntryRules(family: Family, entry: Entry, host: Host): (r: Result<seq<string>, string>)
    ensures r.Ok? <==> SplitUnitStrict(entry.1).Ok?
    ensures r.Err? ==> r == Err(NO_NUMBER_FOUND)
    ensures r.Ok? ==> |r.value| == |family|
    ensures r.Ok? ==> forall p :: 0 <= p < |family| ==> r.value[p] == EntryRule(family, p, entry, host)
  {
    match SplitUnitStrict(entry.1)
    case Err(e) => Err(e)
    case Ok(sp) => Ok(Generate(family, entry.0, host.toNumber(sp.value), sp.unit, host))
  }

  /** The `p`-th rule of an entry whose split succeeds. */
  function EntryRule(family: Family, p: nat, entry: Entry, host: Host): string
    requires p < |family| && SplitUnitStrict(entry.1).Ok?
  {
    var sp := SplitUnitStrict(entry.1).value;
    Rule(family[p].0, entry.0, family[p].1, host.numText(host.toNumber(sp.value)) + sp.unit, host.eol)
  }

  /**
   * `items.map(f).flat()` where `f` may throw: the results of the items in
   * order, concatenated; the first item that fails aborts with its error.
   */
  function Collect<T, U>(items: seq<T>, f: T -> Result<seq<U>, string>): Result<seq<U>, string>
    decreases |items|
  {
    if items == [] then
      Ok([])
    else
      var prev := Collect(items[..|items| - 1], f);
      var next := f(items[|items| - 1]);
      if prev.Err? then prev
      else if next.Err? then next
      else Ok(prev.value + next.value)
  }

  /** A collection of a prefix that succeeds, extended by one item that succeeds. */
  lemma CollectStep<T, U>(items: seq<T>, e: nat, f: T -> Result<seq<U>, string>)
    requires e < |items| && Collect(items[..e], f).Ok? && f(items[e]).Ok?
    ensures Collect(items[..e + 1], f) == Ok(Collect(items[..e], f).value + f(items[e]).value)
  {
    assert items[..e + 1][..e] == items[..e];
  }

  /** A collection of two items that both succeed. */
  lemma CollectTwo<T, U>(a: T, b: T, f: T -> Result<seq<U>, string>)
    requires f(a).Ok? && f(b).Ok?
    ensures Collect([a, b], f) == Ok(f(a).value + f(b).value)
  {
    var items := [a, b];
    assert Collect(items[..0], f) == Ok([]) by {
      assert items[..0] == [];
    }
    CollectStep(items, 0, f);
    assert Collect(items[..1], f) == Ok(f(a).value) by {
      assert [] + f(a).value == f(a).value;
    }
    CollectStep(items, 1, f);
    assert items[..2] == items;
  }

  /** A collection succeeds exactly when every item does; its error is some item's error. */
  lemma {:induction false} CollectOkIff<T, U>(items: seq<T>, f: T -> Result<seq<U>, string>)
    ensures Collect(items, f).Ok? <==> forall k :: 0 <= k < |items| ==> f(items[k]).Ok?
    ensures Collect(items, f).Err? ==>
      exists k :: 0 <= k < |items| && f(items[k]) == Err(Collect(items, f).error)
    decreases |items|
  {
    if items != [] {
      var init := items[..|items| - 1];
      CollectOkIff(init, f);
      assert forall k :: 0 <= k < |init| ==> init[k] == items[k];
    }
  }

  /** The position of part `p` of item `e` when `count` items each yield `width` parts. */
  function Slot(e: nat, p: nat, width: nat, count: nat): (i: nat)
    requires e < count && p < width
    ensures e * width <= i < (e + 1) * width <= count * width
  {
    MulMonotonic(e + 1, count, width);
    e * width + p
  }

  /** One more item of width `w` adds `w` positions. */
  lemma MulSucc(a: nat, w: nat)
    ensures (a + 1) * w == a * w + w
  {
  }

  /** Fewer items of the same width take no more positions. */
  lemma MulMonotonic(a: nat, b: nat, w: nat)
    requires a <= b
    ensures a * w <= b * w
  {
  }

  /**
   * When every item yields `width` parts, a successful collection holds
   * `width` parts per item, item after item, each item's parts in order.
   */
  lemma {:induction false} CollectLayout<T, U>(items: seq<T>, f: T -> Result<seq<U>, string>, width: nat)
    requires forall k :: 0 <= k < |items| && f(items[k]).Ok? ==> |f(items[k]).value| == width
    requires Collect(items, f).Ok?
    ensures forall e :: 0 <= e < |items| ==> f(items[e]).Ok?
    ensures |Collect(items, f).value| == |items| * width
    ensures forall e, p :: 0 <= e < |items| && 0 <= p < width ==>
      Collect(items, f).value[Slot(e, p, width, |items|)] == f(items[e]).value[p]
    decreases |items|
  {
    if items != [] {
      var n := |items|;
      var init := items[..n - 1];
      assert forall e :: 0 <= e < n - 1 ==> init[e] == items[e];
      CollectLayout(init, f, width);
      var prev := Collect(init, f).value;
      var all := Collect(items, f).value;
      assert all == prev + f(items[n - 1]).value;
      MulSucc(n - 1, width);
      forall e, p | 0 <= e < n && 0 <= p < width
        ensures all[Slot(e, p, width, n)] == f(items[e]).value[p]
      {
        if e < n - 1 {
          assert Slot(e, p, width, n) == Slot(e, p, width, n - 1);
        } else {
          assert Slot(e, p, width, n) == |prev| + p;
        }
      }
    }
  }

  /** `EntryRules` for a fixed family, as the callback of the inner `map`. */
  function EntryRulesOf(family: Family, host: Host): Entry -> Result<seq<string>, string> {
    entry => EntryRules(family, entry, host)
  }

  /** The rules of one family over the entries in order; the first failing split aborts. */
  function FamilyRules(family: Family, entries: seq<Entry>, host: Host): Result<seq<string>, string> {
    Collect(entries, EntryRulesOf(family, host))
  }

  /** `FamilyRules` for fixed entries, as the callback of the outer `map`. */
  function FamilyRulesOf(entries: seq<Entry>, host: Host): Family -> Result<seq<string>, string> {
    family => FamilyRules(family, entries, host)
  }

  /** The rules of the families in order, flattened. */
  function AllRules(families: seq<Family>, entries: seq<Entry>, host: Host): Result<seq<string>, string> {
    Collect(families, FamilyRulesOf(entries, host))
  }

  /** The stylesheet text: padding rules then margin rules, joined by the line separator. */
  function Stylesheet(spacing: seq<Entry>, host: Host): (r: Result<string, string>)
    ensures r.Ok? <==> AllSplit(spacing)
    ensures r.Err? ==> r == Err(NO_NUMBER_FOUND)
  {
    AllRulesOkIff(SPACING_PROPERTIES, spacing, host);
    var blocks := AllRules(SPACING_PROPERTIES, spacing, host);
    if blocks.Err? then Err(blocks.error) else Ok(Join(blocks.value, host.eol))
  }

  /** The entry's value does not split, or it splits into an accepted number and unit. */
  ghost predicate UnitAccepted(entry: Entry, host: Host) {
    var sp := SplitUnitStrict(entry.1);
    sp.Ok? ==> UnitAllowed(host.toNumber(sp.value.value), sp.value.unit)
  }

  /** The messages an entry makes the generator log, once per family. */
  function EntryReport(entry: Entry, host: Host): (r: seq<string>)
    ensures r == [] <==> UnitAccepted(entry, host)
    ensures r != [] ==> r == [InvalidUnitMessage(SplitUnitStrict(entry.1).value.unit)]
  {
    match SplitUnitStrict(entry.1)
    case Err(_) => []
    case Ok(sp) =>
      if UnitAllowed(host.toNumber(sp.value), sp.unit) then [] else [InvalidUnitMessage(sp.unit)]
  }

  /** `items.map(f).flat()` for a callback that cannot fail. */
  function ConcatMap<T, U>(items: seq<T>, f: T -> seq<U>): seq<U>
    decreases |items|
  {
    if items == [] then [] else ConcatMap(items[..|items| - 1], f) + f(items[|items| - 1])
  }

  /** A concatenation of a prefix, extended by one item. */
  lemma ConcatMapStep<T, U>(items: seq<T>, e: nat, f: T -> seq<U>)
    requires e < |items|
    ensures ConcatMap(items[..e + 1], f) == ConcatMap(items[..e], f) + f(items[e])
  {
    assert items[..e + 1][..e] == items[..e];
  }

  /** A concatenation is empty exactly when every item contributes nothing. */
  lemma {:induction false} ConcatMapEmptyIff<T, U>(items: seq<T>, f: T -> seq<U>)
    ensures ConcatMap(items, f) == [] <==> forall k :: 0 <= k < |items| ==> f(items[k]) == []
    decreases |items|
  {
    if items != [] {
      var init := items[..|items| - 1];
      ConcatMapEmptyIff(init, f);
      assert forall k :: 0 <= k < |init| ==> init[k] == items[k];
    }
  }

  /** `EntryReport` as a callback. */
  function EntryReportOf(host: Host): Entry -> seq<string> {
    entry => EntryReport(entry, host)
  }

  /** What one family's pass over the entries logs. */
  function FamilyReports(entries: seq<Entry>, host: Host): seq<string> {
    ConcatMap(entries, EntryReportOf(host))
  }

  /** What the passes of the families log: each family repeats the same reports. */
  function AllReports(families: seq<Family>, entries: seq<Entry>, host: Host): seq<string> {
    ConcatMap(families, _ => FamilyReports(entries, host))
  }

  /** Every entry's value splits. */
  ghost predicate AllSplit(entries: seq<Entry>) {
    forall k :: 0 <= k < |entries| ==> SplitUnitStrict(entries[k].1).Ok?
  }

  /** A family's rules exist exactly when every entry splits; the only error is the split's. */
  lemma FamilyRulesOkIff(family: Family, entries: seq<Entry>, host: Host)
    ensures FamilyRules(family, entries, host).Ok? <==> AllSplit(entries)
    ensures FamilyRules(family, entries, host).Err? ==> FamilyRules(family, entries, host) == Err(NO_NUMBER_FOUND)
  {
    CollectOkIff(entries, EntryRulesOf(family, host));
  }

  /** All rules exist exactly when every entry splits (given at least one family). */
  lemma AllRulesOkIff(families: seq<Family>, entries: seq<Entry>, host: Host)
    requires families != []
    ensures AllRules(families, entries, host).Ok? <==> AllSplit(entries)
    ensures AllRules(families, entries, host).Err? ==> AllRules(families, entries, host) == Err(NO_NUMBER_FOUND)
  {
    CollectOkIff(families, FamilyRulesOf(entries, host));
    forall k | 0 <= k < |families| {
      FamilyRulesOkIff(families[k], entries, host);
    }
  }

  /**
   * A family's rules list the entries in order and, within an entry, the
   * prefixes in table order: `|family|` rules per entry.
   */
  lemma FamilyRulesLayout(family: Family, entries: seq<Entry>, host: Host)
    requires AllSplit(entries)
    ensures FamilyRules(family, entries, host).Ok?
    ensures |FamilyRules(family, entries, host).value| == |entries| * |family|
    ensures forall e, p :: 0 <= e < |entries| && 0 <= p < |family| ==>
      FamilyRules(family, entries, host).value[Slot(e, p, |family|, |entries|)] == EntryRule(family, p, entries[e], host)
  {
    FamilyRulesOkIff(family, entries, host);
    CollectLayout(entries, EntryRulesOf(family, host), |family|);
  }

  /**
   * The whole stylesheet: when every entry splits, it is the join by EOL of
   * `2 * 7 * |spacing|` rules, the padding rules before the margin rules, and
   * within each family the entries in order with the prefixes in table order;
   * entries whose unit is not accepted are kept. When some entry does not
   * split, no output is produced at all.
   */
  lemma StylesheetLayout(spacing: seq<Entry>, host: Host)
    ensures Stylesheet(spacing, host).Ok? <==> AllSplit(spacing)
    ensures Stylesheet(spacing, host).Err? ==> Stylesheet(spacing, host) == Err(NO_NUMBER_FOUND)
    ensures AllSplit(spacing) ==> AllRules(SPACING_PROPERTIES, spacing, host).Ok?
    ensures AllSplit(spacing) ==>
      var blocks := AllRules(SPACING_PROPERTIES, spacing, host).value;
      var n := |spacing|;
      && Stylesheet(spacing, host) == Ok(Join(blocks, host.eol))
      && |blocks| == 2 * (n * 7)
      && (forall e, p :: 0 <= e < n && 0 <= p < 7 ==>
            blocks[Slot(e, p, 7, n)] == EntryRule(PADDING, p, spacing[e], host))
      && (forall e, p :: 0 <= e < n && 0 <= p < 7 ==>
            blocks[n * 7 + Slot(e, p, 7, n)] == EntryRule(MARGIN, p, spacing[e], host))
  {
    AllRulesOkIff(SPACING_PROPERTIES, spacing, host);
    if AllSplit(spacing) {
      AllRulesLayout(spacing, host);
    }
  }

  /** With every entry split, the padding rules come first and the margin rules follow, entry by entry. */
  lemma AllRulesLayout(spacing: seq<Entry>, host: Host)
    requires AllSplit(spacing)
    ensures AllRules(SPACING_PROPERTIES, spacing, host).Ok?
    ensures
      var blocks := AllRules(SPACING_PROPERTIES, spacing, host).value;
      var n := |spacing|;
      && |blocks| == 2 * (n * 7)
      && (forall e, p :: 0 <= e < n && 0 <= p < 7 ==>
            blocks[Slot(e, p, 7, n)] == EntryRule(PADDING, p, spacing[e], host))
      && (forall e, p :: 0 <= e < n && 0 <= p < 7 ==>
            blocks[n * 7 + Slot(e, p, 7, n)] == EntryRule(MARGIN, p, spacing[e], host))
  {
    assert |PADDING| == 7 && |MARGIN| == 7;
    TwoFamiliesLayout(PADDING, MARGIN, spacing, host);
  }

  /** The rules of two families of the same width over entries that all split: the first family's, then the second's. */
  lemma TwoFamiliesLayout(first: Family, second: Family, entries: seq<Entry>, host: Host)
    requires AllSplit(entries) && |first| == |second|
    ensures AllRules([first, second], entries, host).Ok?
    ensures
      var blocks := AllRules([first, second], entries, host).value;
      var n := |entries|;
      var w := |first|;
      && |blocks| == 2 * (n * w)
      && (forall e, p :: 0 <= e < n && 0 <= p < w ==>
            blocks[Slot(e, p, w, n)] == EntryRule(first, p, entries[e], host))
      && (forall e, p :: 0 <= e < n && 0 <= p < w ==>
            blocks[n * w + Slot(e, p, w, n)] == EntryRule(second, p, entries[e], host))
  {
    var n := |entries|;
    var w := |first|;
    FamilyRulesLayout(first, entries, host);
    FamilyRulesLayout(second, entries, host);
    AllRulesOfTwo(first, second, entries, host);
    var blocks := AllRules([first, second], entries, host).value;
    forall e, p | 0 <= e < n && 0 <= p < w
      ensures blocks[Slot(e, p, w, n)] == EntryRule(first, p, entries[e], host)
      ensures blocks[n * w + Slot(e, p, w, n)] == EntryRule(second, p, entries[e], host)
    {
      var i := Slot(e, p, w, n);
      assert i < n * w;
    }
  }

  /** The rules of two families whose rules exist: the first family's, then the second's. */
  lemma AllRulesOfTwo(first: Family, second: Family, entries: seq<Entry>, host: Host)
    requires FamilyRules(first, entries, host).Ok? && FamilyRules(second, entries, host).Ok?
    ensures AllRules([first, second], entries, host)
      == Ok(FamilyRules(first, entries, host).value + FamilyRules(second, entries, host).value)
  {
    CollectTwo(first, second, FamilyRulesOf(entries, host));
  }

  /** Nothing is reported exactly when every entry that splits has an accepted unit. */
  lemma FamilyReportsEmptyIff(entries: seq<Entry>, host: Host)
    ensures FamilyReports(entries, host) == [] <==>
      forall k :: 0 <= k < |entries| ==> UnitAccepted(entries[k], host)
  {
    ConcatMapEmptyIff(entries, EntryReportOf(host));
  }

  /**
   * An entry whose unit is not accepted is reported once and still yields
   * one rule per prefix: nothing is dropped.
   */
  lemma InvalidUnitIsKept(family: Family, entry: Entry, host: Host)
    requires SplitUnitStrict(entry.1).Ok? && !UnitAccepted(entry, host)
    ensures EntryReport(entry, host) == [InvalidUnitMessage(SplitUnitStrict(entry.1).value.unit)]
    ensures EntryRules(family, entry, host).Ok? && |EntryRules(family, entry, host).value| == |family|
  {
  }

  /** One more entry that splits extends a family's rules by that entry's rules. */
  lemma FamilyRulesStep(family: Family, entries: seq<Entry>, e: nat, host: Host)
    requires e < |entries| && FamilyRules(family, entries[..e], host).Ok?
    requires SplitUnitStrict(entries[e].1).Ok?
    ensures var sp := SplitUnitStrict(entries[e].1).value;
      FamilyRules(family, entries[..e + 1], host) == Ok(FamilyRules(family, entries[..e], host).value
        + Generate(family, entries[e].0, host.toNumber(sp.value), sp.unit, host))
  {
    CollectStep(entries, e, EntryRulesOf(family, host));
  }

  /** One more entry extends a family's reports by that entry's report. */
  lemma FamilyReportsStep(entries: seq<Entry>, e: nat, host: Host)
    requires e < |entries|
    ensures FamilyReports(entries[..e + 1], host) == FamilyReports(entries[..e], host) + EntryReport(entries[e], host)
  {
    ConcatMapStep(entries, e, EntryReportOf(host));
  }

  /** One more family whose rules exist extends all rules by that family's rules. */
  lemma AllRulesStep(families: seq<Family>, f: nat, entries: seq<Entry>, host: Host)
    requires f < |families| && AllRules(families[..f], entries, host).Ok?
    requires FamilyRules(families[f], entries, host).Ok?
    ensures AllRules(families[..f + 1], entries, host)
      == Ok(AllRules(families[..f], entries, host).value + FamilyRules(families[f], entries, host).value)
  {
    CollectStep(families, f, FamilyRulesOf(entries, host));
  }

  /** One more family repeats the family reports once more. */
  lemma AllReportsStep(families: seq<Family>, f: nat, entries: seq<Entry>, host: Host)
    requires f < |families|
    ensures AllReports(families[..f + 1], entries, host) == AllReports(families[..f], entries, host) + FamilyReports(entries, host)
  {
    assert families[..f + 1][..f] == families[..f];
  }

  /**
   * The inner `map` of the validation block for one family: split each
   * entry's value (a failure ends the run), convert the number, report an
   * unaccepted unit without dropping the entry, and generate its rules.
   */
  method FamilyBlocks(family: Family, spacing: seq<Entry>, host: Host) returns (rows: Result<seq<string>, string>, logged: seq<string>)
    ensures rows == FamilyRules(family, spacing, host)
    ensures rows.Ok? ==> logged == FamilyReports(spacing, host)
  {
    var acc: seq<string> := [];
    logged := [];
    var e := 0;
    while e < |spacing|
      invariant 0 <= e <= |spacing|
      invariant FamilyRules(family, spacing[..e], host) == Ok(acc)
      invariant logged == FamilyReports(spacing[..e], host)
    {
      var (spacer, spacerValue) := spacing[e];
      var value: JsValue := Str("");
      var unit := "";
      var splat := SplitUnitStrict(spacerValue);
      if splat.Err? {
        FamilyRulesOkIff(family, spacing, host);
        rows := Err(splat.error);
        return;
      }
      value, unit := splat.value.value, splat.value.unit;
      var num := host.toNumber(value);
      FamilyReportsStep(spacing, e, host);
      if !UnitAllowed(num, unit) {
        logged := logged + [InvalidUnitMessage(unit)];
      }
      FamilyRulesStep(family, spacing, e, host);
      acc := acc + Generate(family, spacer, num, unit, host);
      e := e + 1;
    }
    assert spacing[..e] == spacing;
    rows := Ok(acc);
  }

  /**
   * The validation and assembly block of main.js: the padding family, then
   * the margin family, each over every spacing entry; the first split that
   * fails ends the run with no output; finally everything is joined by EOL.
   */
  method BuildStylesheet(spacing: seq<Entry>, host: Host) returns (css: Result<string, string>, reported: seq<string>)
    ensures css == Stylesheet(spacing, host)
    ensures css.Ok? ==> reported == AllReports(SPACING_PROPERTIES, spacing, host)
  {
    var blocks: seq<string> := [];
    reported := [];
    var f := 0;
    while f < |SPACING_PROPERTIES|
      invariant 0 <= f <= |SPACING_PROPERTIES|
      invariant AllRules(SPACING_PROPERTIES[..f], spacing, host) == Ok(blocks)
      invariant reported == AllReports(SPACING_PROPERTIES[..f], spacing, host)
    {
      var rows, logged := FamilyBlocks(SPACING_PROPERTIES[f], spacing, host);
      if rows.Err? {
        FamilyRulesOkIff(SPACING_PROPERTIES[f], spacing, host);
        StylesheetLayout(spacing, host);
        css := Err(rows.error);
        return;
      }
      AllRulesStep(SPACING_PROPERTIES, f, spacing, host);
      AllReportsStep(SPACING_PROPERTIES, f, spacing, host);
      blocks := blocks + rows.value;
      reported := reported + logged;
      f := f + 1;
    }
    assert SPACING_PROPERTIES[..f] == SPACING_PROPERTIES;
    css := Ok(Join(blocks, host.eol));
  }
}
