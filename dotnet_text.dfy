/**
 * The few pieces of the .NET base library that the server core relies on to
 * inspect strings: `char.IsWhiteSpace`, `string.IsNullOrWhiteSpace`, the
 * Unicode-category tests behind `char.IsUpper`/`IsLower`/`IsDigit`/`IsLetterOrDigit`,
 * `string.Trim` and an ordinal ignore-case comparison.
 */
module DotNetText {
  import opened Wrappers

  /** `char.IsWhiteSpace`: the Unicode space separators (category Zs), the
      line and paragraph separators and the C0/C1 controls U+0009–U+000D, U+0085. */
  predicate IsWhiteSpace(c: char) {
    || ('\t' <= c <= '\r')
    || c == ' ' || c == '\U{85}' || c == '\U{A0}' || c == '\U{1680}'
    || ('\U{2000}' <= c <= '\U{200A}')
    || c == '\U{2028}' || c == '\U{2029}' || c == '\U{202F}' || c == '\U{205F}' || c == '\U{3000}'
  }

  /** `string.IsNullOrWhiteSpace` on a non-null string: empty or whitespace only. */
  predicate IsBlank(s: string) {
    forall i | 0 <= i < |s| :: IsWhiteSpace(s[i])
  }

  /** `string.IsNullOrWhiteSpace` on a nullable string. */
  predicate IsNullOrWhiteSpace(s: Option<string>) {
    s.None? || IsBlank(s.value)
  }

  /** The general categories that `char.IsUpper`, `IsLower`, `IsDigit` and
      `IsLetterOrDigit` consult; every other category is `OtherCategory`. */
  datatype UnicodeCategory =
    | UppercaseLetter | LowercaseLetter | TitlecaseLetter | ModifierLetter | OtherLetter
    | DecimalDigitNumber
    | OtherCategory

  /** The Unicode character database, which .NET consults and this model takes as a parameter. */
  type Classifier = char -> UnicodeCategory

  predicate IsUpper(cat: Classifier, c: char) { cat(c) == UppercaseLetter }
  predicate IsLower(cat: Classifier, c: char) { cat(c) == LowercaseLetter }
  predicate IsDigit(cat: Classifier, c: char) { cat(c) == DecimalDigitNumber }
  predicate IsLetterOrDigit(cat: Classifier, c: char) { cat(c) != OtherCategory }

  /** The classifier restricted to ASCII, used for concrete examples. */
  function AsciiCategory(c: char): (k: UnicodeCategory)
    ensures k == UppercaseLetter <==> 'A' <= c <= 'Z'
    ensures k == LowercaseLetter <==> 'a' <= c <= 'z'
  {
    if 'A' <= c <= 'Z' then UppercaseLetter
    else if 'a' <= c <= 'z' then LowercaseLetter
    else if '0' <= c <= '9' then DecimalDigitNumber
    else OtherCategory
  }

  /** The prefix of `s` that `TrimStart` removes. */
  function LeadingWhiteSpace(s: string): (n: nat)
    ensures n <= |s|
    ensures forall i | 0 <= i < n :: IsWhiteSpace(s[i])
    ensures n < |s| ==> !IsWhiteSpace(s[n])
  {
    if s == [] || !IsWhiteSpace(s[0]) then 0 else 1 + LeadingWhiteSpace(s[1..])
  }

  /** `t` is `s` with a white-space prefix and a white-space suffix cut off. */
  predicate StrippedFrom(s: string, t: string) {
    exists a, b :: 0 <= a <= b <= |s| && t == s[a..b] &&
      (forall i | 0 <= i < a :: IsWhiteSpace(s[i])) && (forall i | b <= i < |s| :: IsWhiteSpace(s[i]))
  }

  /** Cutting a white-space prefix off first does not change what can be stripped. */
  lemma StrippedAfterFront(s: string, n: nat, t: string)
    requires n <= |s| && forall i | 0 <= i < n :: IsWhiteSpace(s[i])
    requires StrippedFrom(s[n..], t)
    ensures StrippedFrom(s, t)
  {
    var a, b :| 0 <= a <= b <= |s[n..]| && t == s[n..][a..b] &&
      (forall i | 0 <= i < a :: IsWhiteSpace(s[n..][i])) && (forall i | b <= i < |s[n..]| :: IsWhiteSpace(s[n..][i]));
    assert t == s[n + a..n + b];
    forall i | 0 <= i < n + a ensures IsWhiteSpace(s[i]) {
      if i >= n {
        assert s[i] == s[n..][i - n];
      }
    }
    forall i | n + b <= i < |s| ensures IsWhiteSpace(s[i]) {
      assert s[i] == s[n..][i - n];
    }
  }

  /** The same for one trailing white-space character. */
  lemma StrippedAfterBack(s: string, t: string)
    requires s != [] && IsWhiteSpace(s[|s| - 1])
    requires StrippedFrom(s[..|s| - 1], t)
    ensures StrippedFrom(s, t)
  {
    var init := s[..|s| - 1];
    var a, b :| 0 <= a <= b <= |init| && t == init[a..b] &&
      (forall i | 0 <= i < a :: IsWhiteSpace(init[i])) && (forall i | b <= i < |init| :: IsWhiteSpace(init[i]));
    assert t == s[a..b];
    assert forall i | 0 <= i < a :: s[i] == init[i];
    assert forall i | b <= i < |init| :: s[i] == init[i];
  }

  /** `string.Trim()`: removes leading and trailing white space, and nothing else. */
  function Trim(s: string): (t: string)
    ensures |t| <= |s|
    ensures StrippedFrom(s, t)
    ensures t == [] || (!IsWhiteSpace(t[0]) && !IsWhiteSpace(t[|t| - 1]))
    ensures (forall i | 0 <= i < |s| :: !IsWhiteSpace(s[i])) ==> t == s
    decreases |s|
  {
    var n := LeadingWhiteSpace(s);
    if n > 0 then
      var t := Trim(s[n..]);
      StrippedAfterFront(s, n, t);
      t
    else if s != [] && IsWhiteSpace(s[|s| - 1]) then
      var t := Trim(s[..|s| - 1]);
      StrippedAfterBack(s, t);
      t
    else
      assert s == s[0..|s|];
      s
  }

  /** Simple upper-case mapping of ASCII letters; every other character is kept. */
  function UpperAscii(c: char): (u: char)
    ensures !('a' <= u <= 'z')
    ensures !('a' <= c <= 'z') ==> u == c
  {
    if 'a' <= c <= 'z' then (c as int - 32) as char else c
  }

  function UpperAsciiString(s: string): (u: string)
    ensures |u| == |s|
    ensures forall i | 0 <= i < |s| :: u[i] == UpperAscii(s[i])
  {
    if s == [] then [] else [UpperAscii(s[0])] + UpperAsciiString(s[1..])
  }

  /** `string.Equals(a, b, StringComparison.OrdinalIgnoreCase)` for ASCII case pairs. */
  predicate EqualsIgnoreCase(a: string, b: string) {
    UpperAsciiString(a) == UpperAsciiString(b)
  }
}
