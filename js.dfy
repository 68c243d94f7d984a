/**
 * The slice of JavaScript's value model that the tool's predicates inspect:
 * values, numbers with their non-finite cases, `typeof`, and the string
 * built-ins `trim` and `includes`.
 */
module Js {

  /**
   * A JavaScript number. Finite values are kept as mathematical reals; rounding
   * to IEEE doubles is not modelled, and -0 is the same value as 0.
   */
  datatype Num = Finite(x: real) | NaN | PosInfinity | NegInfinity

  /**
   * A JavaScript value. `Object` is an ordinary object given by its own
   * enumerable entries in insertion order; `Function` stands for any callable;
   * `Date` holds its time value (NaN for an invalid date).
   */
  datatype JsValue =
    | Undefined
    | Null
    | Bool(b: bool)
    | Number(n: Num)
    | Str(s: string)
    | Array(items: seq<JsValue>)
    | Object(entries: seq<(string, JsValue)>)
    | Function
    | Date(time: Num)

  /** The `typeof` operator. */
  function TypeOf(v: JsValue): (t: string)
    ensures t in {"undefined", "object", "boolean", "number", "string", "function"}
    ensures t == "object" <==> v.Null? || v.Array? || v.Object? || v.Date?
  {
    match v
    case Undefined => "undefined"
    case Null => "object"
    case Bool(_) => "boolean"
    case Number(_) => "number"
    case Str(_) => "string"
    case Array(_) => "object"
    case Object(_) => "object"
    case Function => "function"
    case Date(_) => "object"
  }

  /** The line terminators of ECMAScript: LF, CR, LINE SEPARATOR, PARAGRAPH SEPARATOR. */
  const LINE_TERMINATORS: set<char> := {'\n', '\r', '\U{2028}', '\U{2029}'}

  /** ECMAScript white space: TAB, VT, FF, SPACE, NBSP, ZWNBSP and the other space separators. */
  const WHITE_SPACE: set<char> := {
    '\t', '\U{000B}', '\U{000C}', ' ', '\U{00A0}', '\U{FEFF}', '\U{1680}',
    '\U{2000}', '\U{2001}', '\U{2002}', '\U{2003}', '\U{2004}', '\U{2005}',
    '\U{2006}', '\U{2007}', '\U{2008}', '\U{2009}', '\U{200A}',
    '\U{202F}', '\U{205F}', '\U{3000}'
  }

  predicate IsLineTerminator(c: char) {
    c in LINE_TERMINATORS
  }

  /** The characters `String.prototype.trim` strips: white space and line terminators. */
  predicate IsTrimmed(c: char) {
    c in WHITE_SPACE || c in LINE_TERMINATORS
  }

  /** `String.prototype.trimStart`. */
  function TrimStart(s: string): (r: string)
    ensures |r| <= |s| && r == s[|s| - |r|..]
    ensures forall i :: 0 <= i < |s| - |r| ==> IsTrimmed(s[i])
    ensures r != [] ==> !IsTrimmed(r[0])
    decreases |s|
  {
    if s != [] && IsTrimmed(s[0]) then TrimStart(s[1..]) else s
  }

  /** `String.prototype.trimEnd`. */
  function TrimEnd(s: string): (r: string)
    ensures |r| <= |s| && r == s[..|r|]
    ensures forall i :: |r| <= i < |s| ==> IsTrimmed(s[i])
    ensures r != [] ==> !IsTrimmed(r[|r| - 1])
    decreases |s|
  {
    if s != [] && IsTrimmed(s[|s| - 1]) then TrimEnd(s[..|s| - 1]) else s
  }

  /**
   * `String.prototype.trim`: the result is a slice of `s` with nothing to strip
   * at either end, and everything cut off on both sides is strippable.
   */
  function Trim(s: string): (r: string)
    ensures exists i :: 0 <= i <= |s| - |r| && r == s[i..][..|r|]
                        && (forall k :: 0 <= k < i ==> IsTrimmed(s[k]))
                        && (forall k :: i + |r| <= k < |s| ==> IsTrimmed(s[k]))
    ensures r != [] ==> !IsTrimmed(r[0]) && !IsTrimmed(r[|r| - 1])
    ensures r == [] <==> forall k :: 0 <= k < |s| ==> IsTrimmed(s[k])
  {
    var t := TrimStart(s);
    var r := TrimEnd(t);
    TrimSlice(s, t, r);
    r
  }

  /** The two halves of `Trim` leave a slice `s[i..i + |r|]` with strippable borders. */
  lemma TrimSlice(s: string, t: string, r: string)
    requires t == TrimStart(s) && r == TrimEnd(t)
    ensures var i := |s| - |t|;
      && 0 <= i <= |s| - |r| && r == s[i..][..|r|]
      && (forall k :: 0 <= k < i ==> IsTrimmed(s[k]))
      && (forall k :: i + |r| <= k < |s| ==> IsTrimmed(s[k]))
    ensures r == [] <==> forall k :: 0 <= k < |s| ==> IsTrimmed(s[k])
  {
    var i := |s| - |t|;
    assert t == s[i..];
    forall k | i + |r| <= k < |s| ensures IsTrimmed(s[k]) {
      assert s[k] == t[k - i];
    }
    if r != [] {
      assert t != [] && t[0] == r[0];
      assert s[i] == t[0];
    }
  }

  /** A string that starts and ends with characters `trim` keeps is its own trim. */
  lemma TrimIdentity(s: string)
    requires s != [] ==> !IsTrimmed(s[0]) && !IsTrimmed(s[|s| - 1])
    ensures Trim(s) == s
  {
    assert TrimStart(s) == s;
    assert TrimEnd(s) == s;
  }

  /** `String.prototype.includes`: `sub` occurs somewhere in `s`. */
  function Includes(s: string, sub: string): (b: bool)
    ensures b <==> exists i :: 0 <= i <= |s| - |sub| && sub == s[i..][..|sub|]
    decreases |s|
  {
    if sub <= s then
      assert sub == s[0..][..|sub|];
      true
    else if s == [] then
      false
    else
      var b := Includes(s[1..], sub);
      assert forall i :: 1 <= i <= |s| - |sub| ==> s[i..] == s[1..][i - 1..];
      assert b ==> exists i :: 0 <= i <= |s| - |sub| && sub == s[i..][..|sub|] by {
        if b {
          var j :| 0 <= j <= |s[1..]| - |sub| && sub == s[1..][j..][..|sub|];
          assert s[1..][j..] == s[j + 1..];
        }
      }
      b
  }

  /**
   * `Array.prototype.join`: the parts in order with `sep` between neighbours.
   * The first part opens the result and the last part closes it.
   */
  function Join(parts: seq<string>, sep: string): (r: string)
    ensures parts == [] ==> r == ""
    ensures |parts| == 1 ==> r == parts[0]
    ensures parts != [] ==> parts[0] <= r
    ensures parts != [] ==> |parts[|parts| - 1]| <= |r| && r[|r| - |parts[|parts| - 1]|..] == parts[|parts| - 1]
    decreases |parts|
  {
    if parts == [] then ""
    else if |parts| == 1 then parts[0]
    else Join(parts[..|parts| - 1], sep) + sep + parts[|parts| - 1]
  }

  /** Four parts joined: each neighbouring pair has one separator between them. */
  lemma JoinOfFour(a: string, b: string, c: string, d: string, sep: string)
    ensures Join([a, b, c, d], sep) == a + sep + b + sep + c + sep + d
  {
    var parts := [a, b, c, d];
    assert parts[..3] == [a, b, c] && parts[..3][..2] == [a, b] && parts[..3][..2][..1] == [a];
    assert Join([a, b], sep) == a + sep + b;
    assert Join([a, b, c], sep) == a + sep + b + sep + c;
  }
}
