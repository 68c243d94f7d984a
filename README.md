# gencss spacing generator — a Dafny model

gencss is a command-line tool that reads a `spacing` table from a JSON
configuration and writes a stylesheet of padding and margin utility classes.
This project models its validation and generation pipeline, one Dafny module
per JavaScript file:

- `Results` (`results.dfy`, from `result.js`): the `Ok`/`Err` wrapper, as a
  datatype with its combinators and their laws.
- `Js` (`js.dfy`): the small part of JavaScript's value model that the
  predicates inspect: values, numbers with their non-finite cases, `typeof`,
  `String.prototype.trim`, `includes` and `Array.prototype.join`.
- `TypeCheck` (`type_check.dfy`, from `typeCheck.js`) and `Strings`
  (`strings.dfy`, from `utils/type/strings.js`): the value classifiers and
  the blank-string checks.
- `Numbers` (`numbers.dfy`, from `numbers.js`): `validateNumber` and
  `safeParseFloat`.
- `Css` (`css.dfy`, from `utils/css/css.js`): `splitUnit` and its regular
  expression `^([-.\d]+(?:\.\d+)?)(.*)$`. The expression is given twice:
  - declaratively, as the cuts of the input that the pattern accepts;
  - operationally, as a scan for the longest run of `-`, `.` and digits.

  The scan is proved to return the match a backtracking engine would return.
- `Generator` (`generator.dfy`, from `main.js`):
  - `split_unit`, the allowed-unit rule, the padding and margin tables and `generate`;
  - the validation and assembly block, as the methods `FamilyBlocks` and
    `BuildStylesheet`. Their `while` loops are proved equal to the pure
    definition `Stylesheet`, whose layout, count and failure behaviour are
    proved as lemmas.
- `Args` (`args.dfy`, from `arrrgs.js`): what `getArgs` does after parsing.
  The `reduce` that merges the parsed values over the defaults is the method
  `MergeDefaults`; the log-level check and the config-name check follow.

Host facilities become parameters, because no JavaScript runtime is modelled:
- `Number(...)`, the text of a number inside a template string and the line
  separator `EOL` are the fields of `Generator.Host`;
- `Number.parseFloat` is the `parseFloat` argument of `Numbers.SafeParseFloat`;
- the way a value is written into an error message is the `show` argument of
  `Numbers.Message`;
- the output of `parseArgs` is the `values` map given to `Args.GetArgs`.

Four behaviours of the code are worth stating plainly:
- `main.js` has no `auto` keyword: `"auto"` fails to split, like any other
  value that does not start with a number.
- An entry whose unit is not accepted is reported, not dropped. It still
  yields its rules (`Generator.InvalidUnitIsKept`).
- A value that does not split ends the whole run with no output
  (`Generator.StylesheetLayout`).
- There are no breakpoints and no media queries. The output is
  `2 * 7 * |spacing|` plain rules.

## Model

| member | source | states |
|---|---|---|
| `Results.FlagsComplementary` | result.js:6-7 | the `ok` and `err` flags always differ, and `ok` holds exactly on `Ok` |
| `Results.Result.OkFlag` | result.js:6 | the `ok` field holds exactly on `Ok` (false on `Err`, result.js:70) |
| `Results.Result.ErrFlag` | result.js:7 | the `err` field holds exactly on `Err` (false on `Ok`, result.js:71) |
| `Results.Result.Map` | result.js:38-40 | `map` keeps the variant; on `Ok(v)` the payload becomes `f(v)`, on `Err` the error is kept (result.js:94-96); see `OkCombinators` and `ErrCombinators` |
| `Results.Result.AndThen` | result.js:42-44 | `andThen` on `Ok(v)` is exactly `f(v)`; on `Err(e)` it is the same `Err(e)` (result.js:98-100) |
| `Results.Result.Unwrap` | result.js:28-30 | `unwrap` (and `safeUnwrap`, result.js:20-22) on an `Ok` gives its payload; the throw of `Err.unwrap` is the precondition |
| `Results.Result.UnwrapOr` | result.js:52-54 | `unwrapOr(d)` gives the payload of an `Ok` and `d` for an `Err` (result.js:108-110) |
| `Results.OkCombinators` | result.js:28-54 | on `Ok(v)`: `map(f)` is `Ok(f(v))`, `andThen(g)` is exactly `g(v)`, `unwrap` and `unwrapOr(d)` give `v` |
| `Results.ErrCombinators` | result.js:94-110 | on `Err(e)`: `map` and `andThen` return the same `Err(e)`, `unwrapOr(d)` gives `d` |
| `Results.Identities` | result.js:38-44 | `r.andThen(Ok)` and `r.map(x => x)` equal `r` for both variants |
| `Results.AndThenAssociative` | result.js:42-44 | chaining `andThen` twice equals one `andThen` with the composed step |
| `Results.ChainShortCircuits` | result.js:98-100 | an `Err` passed through any number of `andThen` steps comes out unchanged |
| `Results.ChainOkNeedsOk` | result.js:42-44 | a chain ends in `Ok` only if it started in `Ok` and its first step succeeded |
| `Js.TypeOf` | typeCheck.js:19-21 | `typeof` is one of six names, and is `"object"` exactly for null, arrays, plain objects and dates |
| `Js.Trim` | utils/type/strings.js:34 | `trim` returns a slice of its input with no strippable character at either end, everything cut off is strippable, and the result is empty exactly when every character is strippable |
| `Js.TrimIdentity` | utils/css/css.js:21 | a string whose ends are not strippable is its own trim |
| `Js.Includes` | arrrgs.js:43 | `includes` holds exactly when the substring occurs at some position |
| `Js.Join` | main.js:142 | `join(sep)`: no parts give `""`, one part gives that part, and otherwise the first part opens and the last part closes the result, with `sep` between neighbours (also `join(", ")` at arrrgs.js:39) |
| `TypeCheck.IsNullish` | typeCheck.js:10-12 | true exactly for `null` and `undefined` |
| `TypeCheck.IsString` | typeCheck.js:19-21 | true exactly for strings |
| `TypeCheck.IsNumber` | typeCheck.js:28-30 | true exactly for numbers other than NaN, infinities included |
| `TypeCheck.IsBoolean` | typeCheck.js:37-39 | true exactly for booleans |
| `TypeCheck.IsArray` | typeCheck.js:55-57 | true exactly for arrays; an array is of type `"object"` and is not nullish |
| `TypeCheck.IsObject` | typeCheck.js:46-48 | true exactly for plain objects and dates, never for null, undefined or arrays |
| `TypeCheck.IsFunction` | typeCheck.js:64-66 | true exactly for the callable tag |
| `TypeCheck.IsDate` | typeCheck.js:73-75 | true exactly for dates whose time is not NaN; such a date is also an object |
| `TypeCheck.IsEmpty` | typeCheck.js:84-94 | strings and arrays are empty iff their length is 0, plain objects iff they have no keys; dates have no keys; every other value is not empty |
| `TypeCheck.Keys` | typeCheck.js:90 | `Object.keys` has one key per own entry, none for a date |
| `TypeCheck.IsDefined` | typeCheck.js:101-103 | false only for `undefined`, so true for `null` |
| `TypeCheck.ObjectIsNotArray` | typeCheck.js:46-57 | no value is both an object and an array; null and undefined are not objects |
| `Strings.IsNullishOrEmpty` | utils/type/strings.js:8-18 | true for every non-string; for a string, true iff its length is 0 |
| `Strings.IsNullishOrEmptyOrWhitespace` | utils/type/strings.js:25-35 | true for every non-string; for a string, true iff every character is one that `trim` strips |
| `Strings.EmptyIsBlank` | utils/type/strings.js:8-35 | `isNullishOrEmpty` implies `isNullishOrEmptyOrWhitespace` |
| `Strings.VisibleCharNotBlank` | utils/type/strings.js:34 | a string with any character that `trim` keeps is not blank |
| `Numbers.Message` | numbers.js:5-15 | a nullish error reads as the offending value followed by " is nullish", a not-a-number error by " is not a number", an infinite error by " is infenite" |
| `Numbers.ValidateNumber` | numbers.js:4-18 | `Ok` exactly for finite numbers, returned unchanged. Otherwise exactly one error, chosen in this order: nullish for null/undefined, then not-a-number for non-numbers and NaN, then infinite for the infinities. Every error holds the offending value |
| `Numbers.SafeParseFloat` | numbers.js:20-24 | `Ok` exactly when the parse is finite, with the parsed number; otherwise a not-a-number or infinite error, never a nullish one |
| `Css.Matches` | utils/css/css.js:4 | the definition of the pattern: a cut `(i, j)` of `s` is accepted iff `s[..i]` is a non-empty run of `-`, `.` and digits, `s[i..j]` is empty or a `.` followed by one or more digits, and `s[j..]` holds no line terminator; group 1 is `s[..j]`, group 2 is `s[j..]` |
| `Css.HasMatch` | utils/css/css.js:4 | the definition of a successful `match`: some cut of `s` is accepted by `Matches` |
| `Css.IsFirstMatch` | utils/css/css.js:4 | the definition of the match a backtracking engine returns: the cut `(n, n)` is accepted, no accepted cut has a longer run, and with the same run the optional group matches nothing |
| `Css.NumberRunLength` | utils/css/css.js:4 | the length of the longest prefix made only of `-`, `.` and digits |
| `Css.MatchWithinRun` | utils/css/css.js:4 | every cut the pattern accepts ends group 1 inside that run, and the cut at the run's end is accepted |
| `Css.MatchNumberWithUnit` | utils/css/css.js:15 | the match exists iff the pattern accepts some cut. When it exists, the two groups rebuild the input, come from the first cut in backtracking order, and group 1 is non-empty and made of number characters |
| `Css.FirstMatchIsRun` | utils/css/css.js:4 | the first match's group 1 is exactly the longest run of number characters, which is not empty |
| `Css.FirstMatchUnique` | utils/css/css.js:4 | the first match is unique |
| `Css.NumberCharNotTrimmed` | utils/css/css.js:21 | `trim` never strips `-`, `.` or a digit, so trimming group 1 changes nothing |
| `Css.SplitMatched` | utils/css/css.js:15-21 | for a non-blank string: `Ok` iff the pattern matches, else the "No number found" error; on success the value is group 1 and the unit is the rest trimmed |
| `Css.SplitMatchedGroups` | utils/css/css.js:15-21 | the split is exactly `{value: group 1, unit: group 2 trimmed}`, or the error when there is no match |
| `Css.SplitUnit` | utils/css/css.js:10-22 | blank or non-string input passes through with unit `""`; otherwise `Ok` iff the pattern matches, with the first match's groups, else "No number found" |
| `Css.SplitUnitTakesLongestRun` | utils/css/css.js:21 | on success the value is the longest non-empty run of `-`, `.` and digits leading the input |
| `Css.SplitUnitRebuilds` | utils/css/css.js:21 | on success the value followed by the untrimmed rest is the input, and the unit is that rest trimmed |
| `Css.SplitUnitNeedsLeadingNumber` | utils/css/css.js:15-19 | a non-blank string that does not start with `-`, `.` or a digit (a leading space included) gives "No number found" |
| `Css.ScanRejectsLineTerminator` | utils/css/css.js:4 | a line terminator anywhere in the input means no match |
| `Css.SplitUnitRejectsLineTerminator` | utils/css/css.js:15-19 | a non-blank string holding a line terminator gives "No number found" |
| `Css.RunOfNumberChars` | utils/css/css.js:4 | a run of number characters followed by another character is exactly the scanned run |
| `Css.SplitUnitOfNumberAndUnit` | utils/css/css.js:10-22 | any non-empty run of `-`, `.` and digits followed by a unit that starts with another character, has no line terminator and nothing to trim, splits into exactly that run and that unit |
| `Css.SplitUnitOfGroups` | utils/css/css.js:15-21 | when group 2 has nothing to trim, the split is exactly the two groups |
| `Css.SplitUnitRepeatedDots` | utils/css/css.js:4 | the number is not checked for well-formedness: `d.d.dpx` splits into `d.d.d` and `px` |
| `Css.SplitUnitDoubledSign` | utils/css/css.js:4 | `--d` is accepted as a number with an empty unit |
| `Css.SplitUnitPlainLength` | utils/css/css.js:21 | `dpx` splits into `d` and `px` |
| `Generator.SplitUnitStrict` | main.js:26-38 | a non-string or `""` passes through with unit `""`. Any other string is `Ok` iff the pattern matches; the value is then the string's prefix taken by the first match and the unit is the rest of the string trimmed. Every error is "No number found" |
| `Generator.SplitUnitsAgree` | main.js:27 | `split_unit` and `splitUnit` agree except on non-empty white-space strings, which `split_unit` rejects and `splitUnit` passes through |
| `Generator.UnitAllowed` | main.js:127-130 | a unit is accepted iff it is `rem`, `px` or `em`, or the number is 0 and the unit is empty |
| `Generator.InvalidUnitMessage` | main.js:133 | the message is `Invalid CSS unit: "` followed by the unit and a closing quote, so the unit can be read back from it |
| `Generator.Rule` | main.js:155 | the template of one rule: it opens with the selector `.{prefix}-{spacer} {`, closes with `;`, the line separator and `}`, and its length is that of its parts plus the fixed characters |
| `Generator.Generate` | main.js:152-157 | one rule per prefix of the family, in table order, each `.{prefix}-{spacer} {EOL\t{property}: {num}{unit};EOL}` |
| `Generator.EntryRules` | main.js:117-138 | an entry yields its family's rules iff its value splits, one per prefix; otherwise the "No number found" error |
| `Generator.Collect` | main.js:113-141 | the definition of `items.map(f).flat()` with a callback that may throw: the items' results in order, concatenated, the first failing item aborting with its error. Its promises are `CollectOkIff`, `CollectLayout`, `CollectStep` and `CollectTwo` |
| `Generator.CollectStep` | main.js:141 | a successful flattened map over a prefix, extended by one successful item, appends that item's results |
| `Generator.CollectTwo` | main.js:141 | the flattened map over two successful items is the first's results followed by the second's |
| `Generator.CollectOkIff` | main.js:114-124 | the flattened map succeeds iff every item does, and a failure is some item's error |
| `Generator.CollectLayout` | main.js:114-141 | when every item yields `width` results, they appear item after item, each item's results in order, `width` per item |
| `Generator.EntryReport` | main.js:132-134 | for an entry whose value splits: no unit message iff the unit is accepted, otherwise exactly one "Invalid CSS unit" message. A split failure is not reported by this member; it ends the run (see `StylesheetLayout`) |
| `Generator.ConcatMap` | main.js:132-134 | the definition of the log of a pass: each item's messages in order, concatenated. Its promises are `ConcatMapStep` and `ConcatMapEmptyIff` |
| `Generator.ConcatMapStep` | main.js:132-134 | one more entry appends that entry's report |
| `Generator.ConcatMapEmptyIff` | main.js:113-139 | a concatenation of reports is empty iff every entry contributes nothing |
| `Generator.FamilyRules` | main.js:114-139 | the definition of the inner `map` over the spacing entries for one family, which the loop of `FamilyBlocks` is proved equal to. Its promises are `FamilyRulesOkIff`, `FamilyRulesLayout` and `FamilyRulesStep` |
| `Generator.AllRules` | main.js:113-141 | the definition of the outer `map` over padding and margin followed by `.flat(2)`, which the loop of `BuildStylesheet` is proved equal to. Its promises are `AllRulesOkIff`, `AllRulesLayout`, `AllRulesOfTwo` and `AllRulesStep` |
| `Generator.FamilyRulesOkIff` | main.js:114-124 | a family's rules exist iff every entry splits, and otherwise the error is "No number found" |
| `Generator.AllRulesOkIff` | main.js:113-124 | the rules of any non-empty list of families exist iff every entry splits |
| `Generator.FamilyRulesLayout` | main.js:114-139 | a family's rules list the entries in order and, within an entry, the prefixes in table order |
| `Generator.AllRulesLayout` | main.js:110-141 | all rules are the 7 padding rules per entry, then the 7 margin rules per entry |
| `Generator.TwoFamiliesLayout` | main.js:113-141 | with two families of equal width, the first family's rules for every entry precede the second's |
| `Generator.AllRulesOfTwo` | main.js:113-141 | the rules of two families are the first family's rules followed by the second's |
| `Generator.Stylesheet` | main.js:113-142 | the stylesheet exists exactly when every entry splits; otherwise it is "No number found". Its layout is `StylesheetLayout` |
| `Generator.StylesheetLayout` | main.js:113-142 | output exists iff every entry splits. It is then the EOL-join of exactly `2 * 7 * n` rules: padding before margin, entries in order, prefixes in table order, unaccepted units kept. Otherwise the result is "No number found" and nothing is produced |
| `Generator.FamilyReportsEmptyIff` | main.js:132-134 | a family's pass logs nothing iff every splitting entry has an accepted unit |
| `Generator.InvalidUnitIsKept` | main.js:132-138 | an unaccepted unit is reported once, and the entry still yields one rule per prefix |
| `Generator.FamilyRulesStep` | main.js:114-138 | each splitting entry appends its generated rules to the family's rules |
| `Generator.FamilyReportsStep` | main.js:132-134 | each entry appends its report to the family's log |
| `Generator.AllRulesStep` | main.js:113-141 | each family appends its rules to the output |
| `Generator.AllReportsStep` | main.js:113-134 | each family repeats the family log |
| `Generator.FamilyBlocks` | main.js:114-139 | the loop over the entries computes exactly the family's rules (or the first split error) and, on success, the family's log |
| `Generator.BuildStylesheet` | main.js:113-142 | the loop over padding and margin computes exactly the stylesheet (see `StylesheetLayout`) and, on success, what both passes log |
| `Args.LogLevelNames` | utils/cli/logger.js:3-8 | the level names are `debug`, `info`, `warn`, `error`, in that order |
| `Args.Get` | arrrgs.js:37 | property access gives the first property with the key, or `undefined` when there is none |
| `Args.Put` | arrrgs.js:28-29 | afterwards the key holds `v` and every other key holds what it held before; a new key is appended, an existing key keeps its place and the order of keys is unchanged |
| `Args.OptionOrDefault` | arrrgs.js:28-29 | `??`: the given value unless it is null or undefined, else the default |
| `Args.MergedOptions` | arrrgs.js:26-34 | one property per option name, in the order of the defaults table, each holding the given value or the default; see `MergedOptionsContents` |
| `Args.MergedOptionsContents` | arrrgs.js:26-34 | the merge has exactly the keys `color`, `config`, `output`, `logLevel`, in table order. Each key holds the given value unless that is nullish (so `color: false` is kept), else the default |
| `Args.MergedOptionAt` | arrrgs.js:26-34 | each option is found under its own name, in the merge and in the defaults table |
| `Args.MergeDefaults` | arrrgs.js:26-34 | the `reduce` loop builds exactly the merged options |
| `Args.MergeStep` | arrrgs.js:27-31 | each step of the `reduce` appends the next option, whose name is not yet in the accumulator |
| `Args.ValidLogLevel` | arrrgs.js:36-37 | a log level is valid exactly when it is one of the strings `debug`, `info`, `warn`, `error` |
| `Args.LogLevelMessage` | arrrgs.js:39 | the text is `logLevel invalid. Valid values: debug, info, warn, error` |
| `Args.ConfigMessage` | arrrgs.js:46 | the text names `gencss.config.json` and ends with the config path that was given |
| `Args.CheckOptions` | arrrgs.js:36-51 | an invalid log level is an error, checked before the config path. A config path that lacks `gencss.config.json` is the next error. Otherwise `Ok` with the options unchanged |
| `Args.MergedConfigIsString` | arrrgs.js:7-12 | the merged config is a string when the parsed one is, since the option is declared a string |
| `Args.GetArgs` | arrrgs.js:21-52 | getArgs gives the log-level error, then the config error, else `Ok` with the merged options. With nothing given it returns the defaults |
| `Args.NothingGivenMergesToDefaults` | arrrgs.js:14-19 | with no option given, the merge is the defaults table |
| `Args.DefaultsAreAccepted` | arrrgs.js:36-51 | the defaults pass both checks |
| `Args.DefaultConfigNamesConfig` | arrrgs.js:16 | the default config path contains the config file name |

## Left out

- `utils/cli/logger.js` (apart from its level table), `utils/cli/files.js`, `utils/cli/config.js`, `utils/type/json.js` and `utils/type/trace.js`: console output, colours, file access, JSON parsing and tracing are I/O around the pipeline.
- The top level of `main.js` (lines 1-24, 40-67, 69-88, 144-151): argument parsing, locating, reading and writing files, and `process.exit` are I/O. The spacing table enters as a sequence of entries, and the trailing `EOL` added on write is not modelled.
- The debug line `console.log(spacer, num, unit)` at `main.js:136`, and the logged text of a split failure, are not modelled. A split failure becomes the `Err` result that stops the run.
- `Generator.FamilyBlocks`: what is logged is stated only when every entry splits. When a split fails, the process exits, and what it logged before exiting is not stated.
- `Generator.BuildStylesheet`: what is logged is stated only when the run succeeds. When a split fails, the process exits, and what it logged before exiting is not stated.
- Number parsing and printing (`Number(...)`, `Number.parseFloat`, numbers in template strings) are host parameters. Finite numbers are mathematical reals: IEEE rounding is not modelled, and -0 is the same value as 0 (which `num === 0` also treats as equal).
- The order in which `Object.entries` lists integer-like keys of the spacing object first is not modelled. The entries are taken in the order given.
- `Results`: the `val` getter is the datatype destructors `value` and `error`; `safeUnwrap` and `unwrap` are both `Results.Result.Unwrap`; the JavaScript factories `Result.Ok`/`Result.Err` are the datatype constructors.
- `Results.Result.Unwrap`: the throw of `Err.unwrap` is a precondition that the result is `Ok`.
- `TypeCheck.IsFunction`, `TypeCheck.IsDate`: functions and dates are tags of the value datatype. Object identity, `instanceof` and symbol or bigint values are not modelled.
- `Numbers.Message`, `Args.CheckOptions`: error objects (`TypeError`, `RangeError`, `Error`) are modelled by their message text. How a value prints inside a template string is the `show` parameter.
- `Args.GetArgs`: it requires that a parsed `config` is a string or absent, which `parseArgs` guarantees for an option declared as a string. Reading `process.argv` is not modelled.
- Breakpoints and media queries are not modelled, because the code has neither.
