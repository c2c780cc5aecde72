/**
 * The small part of Python's built-in behaviour that the reconciliation code
 * relies on: dynamically typed cell and field values with Python's `==` and
 * truthiness, `str()`, `int()`, `str.lower`, `str.upper`, `str.strip`,
 * `str.split("-")` and `", ".join`.  Case mapping and whitespace are ASCII only.
 */
module Builtins {

  datatype Option<+T> = None | Some(value: T)

  /** A JSON field value or a spreadsheet cell value. */
  datatype Value = Str(s: string) | Num(n: int) | Bool(b: bool)

  /** A spreadsheet cell: `None` is an empty cell. */
  type Cell = Option<Value>

  /** A parsed JSON object, such as the field record of one task. */
  type Dict = map<string, Value>

  predicate Truthy(v: Value) {
    match v
    case Str(s) => s != ""
    case Num(n) => n != 0
    case Bool(b) => b
  }

  predicate CellTruthy(c: Cell) {
    c.Some? && Truthy(c.value)
  }

  function NumberOf(v: Value): int
    requires !v.Str?
  {
    if v.Num? then v.n else if v.b then 1 else 0
  }

  /** Python `==`: strings compare as strings, booleans compare as the numbers 0 and 1. */
  predicate PyEq(a: Value, b: Value) {
    if a.Str? || b.Str? then a == b else NumberOf(a) == NumberOf(b)
  }

  /** Python `cell.value == v` where the cell may be empty (`None == v` is false). */
  predicate CellEquals(c: Cell, v: Value) {
    c.Some? && PyEq(c.value, v)
  }

  /** `dict.get(k, default)` */
  function Get(m: Dict, k: string, default: Value): Value {
    if k in m then m[k] else default
  }

  // ---------------------------------------------------------------- characters

  predicate IsDigit(c: char) { '0' <= c <= '9' }

  /** The regular-expression class `\w`, ASCII only. */
  predicate IsWordChar(c: char) {
    IsDigit(c) || 'a' <= c <= 'z' || 'A' <= c <= 'Z' || c == '_'
  }

  /** The ASCII characters for which Python's `str.isspace` holds. */
  predicate IsSpace(c: char) {
    c == ' ' || '\t' <= c <= '\r' || '\U{1C}' <= c <= '\U{1F}'
  }

  function LowerChar(c: char): char {
    if 'A' <= c <= 'Z' then (c as int + 32) as char else c
  }

  function UpperChar(c: char): char {
    if 'a' <= c <= 'z' then (c as int - 32) as char else c
  }

  function Lower(s: string): string {
    seq(|s|, i requires 0 <= i < |s| => LowerChar(s[i]))
  }

  function Upper(s: string): string {
    seq(|s|, i requires 0 <= i < |s| => UpperChar(s[i]))
  }

  function TrimStart(s: string): string {
    if |s| > 0 && IsSpace(s[0]) then TrimStart(s[1..]) else s
  }

  function TrimEnd(s: string): string {
    if |s| > 0 && IsSpace(s[|s| - 1]) then TrimEnd(s[..|s| - 1]) else s
  }

  /** `str.strip()` */
  function Strip(s: string): string {
    TrimEnd(TrimStart(s))
  }

  /** `str.lstrip()` leaves a suffix that does not start with whitespace. */
  lemma {:induction false} TrimStartShape(s: string)
    ensures |TrimStart(s)| <= |s| && TrimStart(s) == s[|s| - |TrimStart(s)|..]
    ensures |TrimStart(s)| > 0 ==> !IsSpace(TrimStart(s)[0])
    decreases |s|
  {
    if |s| > 0 && IsSpace(s[0]) {
      TrimStartShape(s[1..]);
    }
  }

  /** `str.rstrip()` leaves a prefix that does not end with whitespace. */
  lemma {:induction false} TrimEndShape(s: string)
    ensures |TrimEnd(s)| <= |s| && TrimEnd(s) == s[..|TrimEnd(s)|]
    ensures |TrimEnd(s)| > 0 ==> !IsSpace(TrimEnd(s)[|TrimEnd(s)| - 1])
    decreases |s|
  {
    if |s| > 0 && IsSpace(s[|s| - 1]) {
      TrimEndShape(s[..|s| - 1]);
    }
  }

  /** `str.strip()` leaves a piece of `s` with no whitespace at either end. */
  lemma StripShape(s: string)
    ensures |Strip(s)| <= |s| && forall k :: 0 <= k < |Strip(s)| ==> Strip(s)[k] in s
    ensures |Strip(s)| > 0 ==> !IsSpace(Strip(s)[0]) && !IsSpace(Strip(s)[|Strip(s)| - 1])
  {
    var u := TrimStart(s);
    TrimStartShape(s);
    TrimEndShape(u);
    assert forall k :: 0 <= k < |Strip(s)| ==> Strip(s)[k] == u[k] == s[|s| - |u| + k];
  }

  // ---------------------------------------------------------------- decimal numbers

  predicate AllDigits(s: string) {
    forall i :: 0 <= i < |s| ==> IsDigit(s[i])
  }

  function DigitChar(d: nat): char
    requires d < 10
  {
    ('0' as int + d) as char
  }

  /** The number a string of decimal digits denotes. */
  function DigitsValue(s: string): nat
    requires AllDigits(s)
  {
    if s == [] then 0 else DigitsValue(s[..|s| - 1]) * 10 + (s[|s| - 1] as int - '0' as int)
  }

  /** `str(n)` for a non-negative integer: the canonical decimal numeral of `n`. */
  function DecimalString(n: nat): (r: string)
    ensures |r| > 0 && AllDigits(r)
    ensures r[0] == '0' ==> r == "0"
    ensures DigitsValue(r) == n
  {
    if n < 10 then [DigitChar(n)]
    else
      var prefix := DecimalString(n / 10);
      var r := prefix + [DigitChar(n % 10)];
      assert r[..|r| - 1] == prefix;
      r
  }

  /** `str(v)`, as an f-string formats a value. */
  function Display(v: Value): string {
    match v
    case Str(s) => s
    case Num(n) => if n < 0 then "-" + DecimalString(-n) else DecimalString(n)
    case Bool(b) => if b then "True" else "False"
  }

  /**
   * `int(s)` on a string: surrounding whitespace, one optional sign and at
   * least one ASCII digit.  `None` stands for the `ValueError` Python raises.
   * Digit-group underscores and non-ASCII digits are not accepted here.
   */
  function ParseInt(s: string): (r: Option<int>)
    ensures |s| > 0 && AllDigits(s) ==> r == Some(DigitsValue(s))
    ensures r.Some? && '-' !in s ==> r.value >= 0
  {
    assert |s| > 0 && AllDigits(s) ==> Strip(s) == s by {
      if |s| > 0 && AllDigits(s) {
        StripDigits(s);
      }
    }
    var t := Strip(s);
    assert |t| > 0 ==> t[0] in s by {
      StripShape(s);
    }
    var negative := |t| > 0 && t[0] == '-';
    var body := if |t| > 0 && (t[0] == '+' || t[0] == '-') then t[1..] else t;
    if body != [] && AllDigits(body) then
      Some(if negative then -(DigitsValue(body) as int) else DigitsValue(body))
    else None
  }

  /** The index of the first occurrence of `c` in `s`. */
  function IndexOfChar(s: string, c: char): (i: nat)
    requires c in s
    ensures i < |s| && s[i] == c && c !in s[..i]
  {
    if s[0] == c then 0
    else
      assert c in s[1..] by { var k :| 0 <= k < |s| && s[k] == c; assert s[1..][k - 1] == c; }
      var i := 1 + IndexOfChar(s[1..], c);
      assert s[..i] == [s[0]] + s[1..][..i - 1];
      i
  }

  /**
   * `a, b = s.split("-")` for a string containing a dash: the two parts, or
   * `None` when the split yields more than two parts (Python raises then).
   */
  function SplitDash(s: string): (r: Option<(string, string)>)
    requires '-' in s
    ensures r.Some? ==> s == r.value.0 + "-" + r.value.1 && '-' !in r.value.0 && '-' !in r.value.1
    ensures r.None? ==> forall a, b :: s == a + "-" + b ==> '-' in a || '-' in b
  {
    var i := IndexOfChar(s, '-');
    assert s == s[..i] + "-" + s[i + 1..];
    if '-' in s[i + 1..] then
      assert forall a, b :: s == a + "-" + b ==> '-' in a || '-' in b by {
        forall a, b | s == a + "-" + b && '-' !in a
          ensures '-' in b
        {
          DashPosition(s, a, b, i);
        }
      }
      None
    else Some((s[..i], s[i + 1..]))
  }

  /** If `s == a + "-" + b` and `a` has no dash, the first dash of `s` ends `a`. */
  lemma DashPosition(s: string, a: string, b: string, i: nat)
    requires s == a + "-" + b && '-' !in a
    requires i < |s| && s[i] == '-' && '-' !in s[..i]
    ensures b == s[i + 1..]
  {
    assert s[|a|] == '-';
    assert |a| == i;
  }

  /** A string split at a dash into two dash-free parts is split in only one way. */
  lemma SplitUnique(a: string, b: string, c: string, d: string)
    requires a + "-" + b == c + "-" + d && '-' !in a && '-' !in c
    ensures a == c && b == d
  {
    var s := a + "-" + b;
    assert s[|a|] == '-' && s[|c|] == '-';
    assert forall k :: 0 <= k < |a| ==> s[k] == a[k];
    assert forall k :: 0 <= k < |c| ==> s[k] == c[k];
    assert |a| == |c|;
    assert a == s[..|a|] && c == s[..|c|];
    assert b == s[|a| + 1..] && d == s[|c| + 1..];
  }

  /** A numeral without surrounding whitespace is its own `strip()`. */
  lemma StripDigits(s: string)
    requires |s| > 0 && AllDigits(s)
    ensures Strip(s) == s
  {
    assert TrimStart(s) == s;
  }

  /** `int(str(n)) == n` for every non-negative `n`. */
  lemma ParseDecimal(n: nat)
    ensures ParseInt(DecimalString(n)) == Some(n)
  {
    StripDigits(DecimalString(n));
  }

  /** The number of characters in all of `xs`. */
  function TotalLength(xs: seq<string>): nat {
    if xs == [] then 0 else |xs[0]| + TotalLength(xs[1..])
  }

  /** `sep.join(xs)`: every part once, with one separator between neighbours. */
  function Join(xs: seq<string>, sep: string): (r: string)
    ensures |r| == TotalLength(xs) + if xs == [] then 0 else (|xs| - 1) * |sep|
  {
    if xs == [] then ""
    else if |xs| == 1 then xs[0]
    else xs[0] + sep + Join(xs[1..], sep)
  }
}
