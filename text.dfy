/**
 * Strings as sequences of characters: the character classes of Ruby regular
 * expressions, substring search, `strip`, ASCII case mapping and the decimal
 * rendering of numbers. Only ASCII case mapping and ASCII whitespace are
 * modelled.
 */
module Text {

  /** Ruby's `\s`: space, tab, line feed, vertical tab, form feed, carriage return. */
  predicate IsSpace(c: char) {
    c == ' ' || c == '\t' || c == '\n' || c == '\U{B}' || c == '\U{C}' || c == '\r'
  }

  /** Ruby's `\d`. */
  predicate IsDigit(c: char) {
    '0' <= c <= '9'
  }

  /** Ruby's `\w`: ASCII letters, digits and underscore. */
  predicate IsWordChar(c: char) {
    'a' <= c <= 'z' || 'A' <= c <= 'Z' || IsDigit(c) || c == '_'
  }

  /** `t` occurs in `s` starting at index `i`. */
  predicate OccursAt(s: string, t: string, i: int) {
    0 <= i && i + |t| <= |s| && s[i..i + |t|] == t
  }

  /** Ruby `String#include?` / JavaScript `String.prototype.includes`. */
  predicate Contains(s: string, t: string) {
    exists i :: 0 <= i <= |s| - |t| && OccursAt(s, t, i)
  }

  lemma ContainsAt(s: string, t: string, i: int)
    requires OccursAt(s, t, i)
    ensures Contains(s, t)
  {
  }

  lemma EmptyContainedEverywhere(s: string)
    ensures Contains(s, "")
  {
    assert OccursAt(s, "", 0);
  }

  lemma {:induction false} ContainsInPart(s: string, t: string, u: string)
    requires Contains(t, u)
    ensures Contains(s + t, u) && Contains(t + s, u)
  {
    var i :| 0 <= i <= |t| - |u| && OccursAt(t, u, i);
    assert (s + t)[|s| + i..|s| + i + |u|] == t[i..i + |u|];
    assert OccursAt(s + t, u, |s| + i);
    assert (t + s)[i..i + |u|] == t[i..i + |u|];
    assert OccursAt(t + s, u, i);
  }

  function LowerChar(c: char): (r: char)
    ensures 'A' <= c <= 'Z' ==> r as int == c as int + 32
    ensures !('A' <= c <= 'Z') ==> r == c
  {
    if 'A' <= c <= 'Z' then (c as int + 32) as char else c
  }

  function UpperChar(c: char): (r: char)
    ensures 'a' <= c <= 'z' ==> r as int == c as int - 32
    ensures !('a' <= c <= 'z') ==> r == c
  {
    if 'a' <= c <= 'z' then (c as int - 32) as char else c
  }

  /** ASCII `downcase`. */
  function Lower(s: string): (r: string)
    ensures |r| == |s| && forall i :: 0 <= i < |s| ==> r[i] == LowerChar(s[i])
  {
    if s == [] then [] else [LowerChar(s[0])] + Lower(s[1..])
  }

  /** The characters Ruby's `strip` removes: whitespace and NUL. */
  predicate IsStripChar(c: char) {
    IsSpace(c) || c == '\0'
  }

  /**
   * The characters JavaScript's `trim` removes: the ECMAScript white space
   * (tab, vertical tab, form feed, space, no-break space, byte order mark and
   * the other space separators) and the line terminators.
   */
  predicate IsJsWhitespace(c: char) {
    || c == '\t' || c == '\U{B}' || c == '\U{C}' || c == ' ' || c == '\U{A0}' || c == '\U{FEFF}'
    || c == '\U{1680}' || ('\U{2000}' <= c <= '\U{200A}') || c == '\U{202F}' || c == '\U{205F}'
    || c == '\U{3000}'
    || c == '\n' || c == '\r' || c == '\U{2028}' || c == '\U{2029}'
  }

  function StripLeft(s: string, drop: char -> bool): (r: string)
    ensures |r| <= |s| && r == s[|s| - |r|..]
    ensures r == [] || !drop(r[0])
    ensures forall i :: 0 <= i < |s| - |r| ==> drop(s[i])
  {
    if s != [] && drop(s[0]) then
      var t := StripLeft(s[1..], drop);
      assert s[1..][|s| - 1 - |t|..] == s[|s| - |t|..];
      assert forall i :: 1 <= i < |s| - |t| ==> s[i] == s[1..][i - 1];
      t
    else s
  }

  function StripRight(s: string, drop: char -> bool): (r: string)
    ensures |r| <= |s| && r == s[..|r|]
    ensures r == [] || !drop(r[|r| - 1])
    ensures forall i :: |r| <= i < |s| ==> drop(s[i])
  {
    if s != [] && drop(s[|s| - 1]) then
      var t := StripRight(s[..|s| - 1], drop);
      assert s[..|s| - 1][..|t|] == s[..|t|];
      assert forall i :: |t| <= i < |s| - 1 ==> s[i] == s[..|s| - 1][i];
      t
    else s
  }

  /** `s` without its leading and trailing characters that satisfy `drop`. */
  function Strip(s: string, drop: char -> bool): (r: string)
    ensures |r| <= |s|
    ensures r == [] || (!drop(r[0]) && !drop(r[|r| - 1]))
  {
    StripRight(StripLeft(s, drop), drop)
  }

  /** What `Strip` removes is a run of `drop` characters at each end, and nothing else. */
  lemma StripRemovesEnds(s: string, drop: char -> bool)
    ensures exists i ::
      && 0 <= i <= |s| - |Strip(s, drop)| && OccursAt(s, Strip(s, drop), i)
      && (forall j :: 0 <= j < i ==> drop(s[j]))
      && (forall j :: i + |Strip(s, drop)| <= j < |s| ==> drop(s[j]))
  {
    var l := StripLeft(s, drop);
    var r := StripRight(l, drop);
    var i := |s| - |l|;
    assert r == Strip(s, drop);
    assert s[i..i + |r|] == r by {
      assert l == s[i..];
      assert r == l[..|r|];
    }
    forall j | i + |r| <= j < |s| ensures drop(s[j]) {
      assert s[j] == l[j - i];
    }
    assert forall j :: 0 <= j < i ==> drop(s[j]);
    assert OccursAt(s, r, i);
  }

  /** Ruby `String#strip`. */
  function RubyStrip(s: string): (r: string)
    ensures r == [] || (!IsStripChar(r[0]) && !IsStripChar(r[|r| - 1]))
  {
    Strip(s, IsStripChar)
  }

  /** JavaScript `String.prototype.trim`. */
  function JsTrim(s: string): (r: string)
    ensures r == [] || (!IsJsWhitespace(r[0]) && !IsJsWhitespace(r[|r| - 1]))
  {
    Strip(s, IsJsWhitespace)
  }

  function DigitChar(d: nat): (c: char)
    requires d < 10
    ensures IsDigit(c)
  {
    ('0' as int + d) as char
  }

  function DigitValue(c: char): (d: nat)
    requires IsDigit(c)
    ensures d < 10 && DigitChar(d) == c
  {
    c as int - '0' as int
  }

  /** Decimal rendering of a natural number (Ruby `Integer#to_s`). */
  function NatToString(n: nat): (s: string)
    ensures |s| > 0 && forall i :: 0 <= i < |s| ==> IsDigit(s[i])
    ensures DigitsValue(s) == n
  {
    if n < 10 then [DigitChar(n)]
    else
      var s := NatToString(n / 10) + [DigitChar(n % 10)];
      DigitsValueSnoc(NatToString(n / 10), DigitChar(n % 10));
      s
  }

  /** The number a run of decimal digits denotes (Ruby `to_i` on digits). */
  function DigitsValue(s: string): nat
    requires forall i :: 0 <= i < |s| ==> IsDigit(s[i])
  {
    if s == [] then 0 else DigitsValue(s[..|s| - 1]) * 10 + DigitValue(s[|s| - 1])
  }

  lemma DigitsValueSnoc(s: string, c: char)
    requires forall i :: 0 <= i < |s| ==> IsDigit(s[i])
    requires IsDigit(c)
    ensures DigitsValue(s + [c]) == DigitsValue(s) * 10 + DigitValue(c)
  {
    assert (s + [c])[..|s + [c]| - 1] == s;
  }

  /**
   * Ruby `Float#to_s` of a non-negative value with `places` decimals, given
   * as its whole part and the `places` digits after the point: the fraction
   * is trimmed of trailing zeros, keeping at least one digit (`66.67`,
   * `66.7`, `50.0`).
   */
  function DecimalToString(whole: nat, frac: nat, places: nat): (s: string)
    ensures |s| > |NatToString(whole)| + 1
    ensures s[..|NatToString(whole)|] == NatToString(whole) && s[|NatToString(whole)|] == '.'
  {
    var w := NatToString(whole) + ".";
    var s := w + Fraction(frac, places);
    assert s[..|w|] == w;
    s
  }

  /** The `places` fraction digits of `f`, trailing zeros trimmed, at least one digit. */
  function Fraction(f: nat, places: nat): (s: string)
    ensures |s| >= 1
    decreases places
  {
    if places <= 1 then [DigitChar(f % 10)]
    else if f % 10 == 0 then Fraction(f / 10, places - 1)
    else Fraction(f / 10, places - 1) + [DigitChar(f % 10)]
  }

  /** `parts` joined with `sep` between consecutive elements (Ruby `Array#join`). */
  function Join(parts: seq<string>, sep: string): (r: string)
    ensures parts == [] ==> r == ""
  {
    if parts == [] then ""
    else if |parts| == 1 then parts[0]
    else parts[0] + sep + Join(parts[1..], sep)
  }

  /** Splitting at every `sep` character (keeping empty fields). */
  function Split(s: string, sep: char): (r: seq<string>)
    ensures |r| >= 1
  {
    if s == [] then [""]
    else
      var rest := Split(s[1..], sep);
      if s[0] == sep then [""] + rest else [[s[0]] + rest[0]] + rest[1..]
  }

  lemma {:induction false} SplitPrefix(a: string, b: string, sep: char)
    requires sep !in a
    ensures Split(a + [sep] + b, sep) == [a] + Split(b, sep)
    decreases |a|
  {
    if a == [] {
      assert a + [sep] + b == [sep] + b;
      assert ([sep] + b)[1..] == b;
    } else {
      assert (a + [sep] + b)[1..] == a[1..] + [sep] + b;
      SplitPrefix(a[1..], b, sep);
      assert [a[0]] + a[1..] == a;
    }
  }

  lemma {:induction false} SplitNoSep(a: string, sep: char)
    requires sep !in a
    ensures Split(a, sep) == [a]
    decreases |a|
  {
    if a != [] {
      SplitNoSep(a[1..], sep);
      assert [a[0]] + a[1..] == a;
    }
  }

  /** Splitting a join at a separator absent from every part gives the parts back. */
  lemma {:induction false} SplitJoin(parts: seq<string>, sep: char)
    requires |parts| >= 1
    requires forall i :: 0 <= i < |parts| ==> sep !in parts[i]
    ensures Split(Join(parts, [sep]), sep) == parts
    decreases |parts|
  {
    if |parts| == 1 {
      SplitNoSep(parts[0], sep);
    } else {
      SplitJoin(parts[1..], sep);
      SplitPrefix(parts[0], Join(parts[1..], [sep]), sep);
      assert parts == [parts[0]] + parts[1..];
    }
  }

  /**
   * A simplified ActiveSupport `titleize` for snake_case keys: underscores
   * become spaces, the first letter of each word is upper-cased and the other
   * letters lower-cased.
   */
  function Titleize(s: string): (r: string)
    ensures |r| == |s|
    ensures forall i :: 0 <= i < |s| && s[i] == '_' ==> r[i] == ' '
    ensures forall i :: 0 <= i < |s| && s[i] != '_' ==> LowerChar(r[i]) == LowerChar(s[i])
  {
    TitleizeFrom(s, true)
  }

  function TitleizeFrom(s: string, atWordStart: bool): (r: string)
    ensures |r| == |s|
    ensures forall i :: 0 <= i < |s| && s[i] == '_' ==> r[i] == ' '
    ensures forall i :: 0 <= i < |s| && s[i] != '_' ==> LowerChar(r[i]) == LowerChar(s[i])
  {
    if s == [] then []
    else
      var c := if s[0] == '_' then ' ' else s[0];
      var out := if atWordStart then UpperChar(c) else LowerChar(c);
      [out] + TitleizeFrom(s[1..], !IsWordChar(c))
  }

  /** The end of the run of characters satisfying `p` that starts at `i`. */
  function SpanEnd(s: string, i: nat, p: char -> bool): (j: nat)
    requires i <= |s|
    ensures i <= j <= |s|
    ensures forall k :: i <= k < j ==> p(s[k])
    ensures j == |s| || !p(s[j])
    decreases |s| - i
  {
    if i == |s| || !p(s[i]) then i else SpanEnd(s, i + 1, p)
  }

  /** A run ends at the first character that fails `p`; there is no other end. */
  lemma SpanEndAt(s: string, i: nat, j: nat, p: char -> bool)
    requires i <= j <= |s|
    requires forall k :: i <= k < j ==> p(s[k])
    requires j == |s| || !p(s[j])
    ensures SpanEnd(s, i, p) == j
  {
  }
}
