/** Character classes, decimal numerals and the string primitives the services call. */
module Text {
  import opened Options

  predicate IsDigit(c: char) { '0' <= c <= '9' }

  /** The regular expression class `\s`, which is also what `trim` strips. */
  predicate IsSpace(c: char) {
    || '\t' <= c <= '\r' || c == ' ' || c == '\U{A0}' || c == '\U{1680}'
    || '\U{2000}' <= c <= '\U{200A}' || c == '\U{2028}' || c == '\U{2029}'
    || c == '\U{202F}' || c == '\U{205F}' || c == '\U{3000}' || c == '\U{FEFF}'
  }

  /** What `^` and `.` of a multi-line regular expression take for the end of a line. */
  predicate IsTerminator(c: char) {
    c == '\n' || c == '\r' || c == '\U{2028}' || c == '\U{2029}'
  }

  predicate AllSpace(s: string) { forall i | 0 <= i < |s| :: IsSpace(s[i]) }

  predicate AllDigits(s: string) { forall i | 0 <= i < |s| :: IsDigit(s[i]) }

  /** The number of leading blanks. */
  function SpaceSpan(s: string): (n: nat)
    ensures n <= |s| && AllSpace(s[..n])
    ensures n < |s| ==> !IsSpace(s[n])
  {
    if s != "" && IsSpace(s[0]) then
      1 + SpaceSpan(s[1..])
    else 0
  }

  function TrimEnd(s: string): string {
    if s != "" && IsSpace(s[|s| - 1]) then TrimEnd(s[..|s| - 1]) else s
  }

  /** `trim()` */
  function Trim(s: string): string {
    TrimEnd(s[SpaceSpan(s)..])
  }

  // ---------------------------------------------------------------- numerals

  function DigitChar(n: nat): (c: char)
    requires n < 10
    ensures IsDigit(c) && c as int - '0' as int == n
  {
    '0' + n as char
  }

  /** The decimal numeral of n, as a template literal prints it. */
  function Show(n: nat): (s: string)
    ensures s != "" && AllDigits(s)
  {
    if n < 10 then [DigitChar(n)] else Show(n / 10) + [DigitChar(n % 10)]
  }

  function Value(s: string): nat
    requires AllDigits(s)
  {
    if s == "" then 0
    else
      10 * Value(s[..|s| - 1]) + (s[|s| - 1] as int - '0' as int)
  }

  /** The number of leading characters of s that are digits. */
  function DigitSpan(s: string): (n: nat)
    ensures n <= |s| && AllDigits(s[..n])
    ensures n < |s| ==> !IsDigit(s[n])
  {
    if s != "" && IsDigit(s[0]) then
      1 + DigitSpan(s[1..])
    else 0
  }

  /** `parseInt(s, 10)` on a string without sign or leading space: None is NaN. */
  function ParseInt(s: string): Option<nat> {
    var n := DigitSpan(s);
    if n == 0 then None else Some(Value(s[..n]))
  }

  lemma {:induction false} ValueOfShow(n: nat)
    ensures Value(Show(n)) == n
  {
    if n >= 10 {
      ValueOfShow(n / 10);
      var s := Show(n);
      assert s[..|s| - 1] == Show(n / 10);
    }
  }

  lemma {:induction false} SpanOfDigits(d: string, rest: string)
    requires AllDigits(d)
    requires rest == "" || !IsDigit(rest[0])
    ensures DigitSpan(d + rest) == |d|
  {
    if d == "" {
      assert d + rest == rest;
    } else {
      SpanOfDigits(d[1..], rest);
      assert (d + rest)[1..] == d[1..] + rest;
    }
  }

  /** A printed number reads back, whatever non-digit text follows it. */
  lemma ParseIntOfShow(n: nat, rest: string)
    requires rest == "" || !IsDigit(rest[0])
    ensures ParseInt(Show(n) + rest) == Some(n)
  {
    SpanOfDigits(Show(n), rest);
    assert (Show(n) + rest)[..|Show(n)|] == Show(n);
    ValueOfShow(n);
  }

  lemma ShowInjective(a: nat, b: nat)
    requires Show(a) == Show(b)
    ensures a == b
  {
    ValueOfShow(a);
    ValueOfShow(b);
  }

  // ---------------------------------------------------------------- searching

  /** `parts.join(sep)` */
  function Join(parts: seq<string>, sep: string): string {
    if parts == [] then "" else if |parts| == 1 then parts[0] else parts[0] + (sep + Join(parts[1..], sep))
  }

  predicate EndsWith(s: string, suffix: string) {
    |suffix| <= |s| && s[|s| - |suffix|..] == suffix
  }

  /** The position of the first `c`, or |s|. */
  function IndexOf(s: string, c: char): (i: nat)
    ensures i <= |s| && c !in s[..i]
    ensures i < |s| ==> s[i] == c
  {
    if s == "" || s[0] == c then 0
    else
      assert s[..1 + IndexOf(s[1..], c)] == [s[0]] + s[1..][..IndexOf(s[1..], c)];
      1 + IndexOf(s[1..], c)
  }

  lemma {:induction false} IndexOfAtMost(s: string, c: char, k: nat)
    requires k < |s| && s[k] == c
    ensures IndexOf(s, c) <= k
  {
    if s[0] != c {
      IndexOfAtMost(s[1..], c, k - 1);
    }
  }

  lemma {:induction false} IndexOfPrefix(a: string, c: char, rest: string)
    requires c !in a
    ensures IndexOf(a + [c] + rest, c) == |a|
  {
    if a == "" {
      assert (a + [c] + rest)[0] == c;
    } else {
      assert a[0] in a && forall x | x in a[1..] :: x in a;
      IndexOfPrefix(a[1..], c, rest);
      assert (a + [c] + rest)[1..] == a[1..] + [c] + rest;
    }
  }

  predicate StartsWith(s: string, p: string) {
    p <= s
  }

  /** `s.includes(p)` */
  predicate Contains(s: string, p: string) {
    exists i | 0 <= i <= |s| :: StartsWith(s[i..], p)
  }

  // ------------------------------------------------------------- letter case

  /**
   `toLowerCase` as far as the letters a-z can tell.  Only two characters outside
   ASCII have a lower case that contains an ASCII letter: U+212A (Kelvin sign,
   "k") and U+0130 ("i" and a combining dot).  Every other character stays
   outside ASCII and is kept as it is.
   */
  function LowerChar(c: char): string {
    if 'A' <= c <= 'Z' then [c - 'A' + 'a']
    else if c == '\U{212A}' then "k"
    else if c == '\U{130}' then "i\U{307}"
    else [c]
  }

  function Lower(s: string): string {
    if s == "" then "" else LowerChar(s[0]) + Lower(s[1..])
  }

  predicate IsLetterOrDigit(c: char) { 'a' <= c <= 'z' || IsDigit(c) }

  /** `replace(/[^a-z0-9]/g, '-')` */
  function Dashed(s: string): (r: string)
    ensures |r| == |s|
    ensures forall i | 0 <= i < |s| :: r[i] == if IsLetterOrDigit(s[i]) then s[i] else '-'
  {
    if s == "" then "" else [if IsLetterOrDigit(s[0]) then s[0] else '-'] + Dashed(s[1..])
  }
}
