/** The few Python string operations the pipeline relies on: `str.strip()`,
    `str.startswith`, the `in` substring test, `sep.join(parts)` and the
    decimal rendering of a natural number inside an f-string. */
module Text {

  /** Python's `str.isspace()` for a single character. */
  predicate IsSpace(c: char) {
    || c == ' '
    || ('\t' <= c <= '\r')
    || ('\U{1C}' <= c <= '\U{1F}')
    || c == '\U{85}' || c == '\U{A0}' || c == '\U{1680}'
    || ('\U{2000}' <= c <= '\U{200A}')
    || c == '\U{2028}' || c == '\U{2029}' || c == '\U{202F}' || c == '\U{205F}' || c == '\U{3000}'
  }

  predicate AllSpace(s: string) {
    forall k :: 0 <= k < |s| ==> IsSpace(s[k])
  }

  /** The number of whitespace characters at the start of `s`. */
  function LeadingSpaces(s: string): (n: nat)
    ensures n <= |s|
    ensures AllSpace(s[..n])
    ensures n < |s| ==> !IsSpace(s[n])
  {
    if |s| > 0 && IsSpace(s[0]) then
      var n := 1 + LeadingSpaces(s[1..]);
      assert forall k :: 1 <= k < n ==> s[k] == s[1..][k - 1];
      n
    else 0
  }

  /** The length of `s` once its trailing whitespace is cut off. */
  function TrailingStart(s: string): (n: nat)
    ensures n <= |s|
    ensures AllSpace(s[n..])
    ensures n > 0 ==> !IsSpace(s[n - 1])
  {
    if |s| > 0 && IsSpace(s[|s| - 1]) then
      var n := TrailingStart(s[..|s| - 1]);
      assert forall k :: n <= k < |s| - 1 ==> s[k] == s[..|s| - 1][k];
      n
    else |s|
  }

  /** Python's `s.strip()`: `s` without its leading and trailing whitespace. */
  function Strip(s: string): (r: string)
    ensures |r| <= |s|
  {
    var i := LeadingSpaces(s);
    s[i..][..TrailingStart(s[i..])]
  }

  /** `Strip(s)` is the part of `s` between a whitespace prefix and a
      whitespace suffix, and starts and ends with a non-whitespace character;
      it is empty exactly when `s` is all whitespace. */
  lemma StripSpec(s: string)
    ensures Strip(s) == "" <==> AllSpace(s)
    ensures Strip(s) != "" ==> !IsSpace(Strip(s)[0]) && !IsSpace(Strip(s)[|Strip(s)| - 1])
    ensures exists i :: 0 <= i <= |s| - |Strip(s)| && Strip(s) == s[i..i + |Strip(s)|] && AllSpace(s[..i]) && AllSpace(s[i + |Strip(s)|..])
  {
    var i := LeadingSpaces(s);
    var t := s[i..];
    var j := TrailingStart(t);
    assert t[..j] == s[i..i + j];
    assert t[j..] == s[i + j..];
    assert j == 0 ==> t[0..] == t && i == |s| && s[..i] == s;
  }

  lemma {:induction false} StripIdempotent(s: string)
    ensures Strip(Strip(s)) == Strip(s)
  {
    var r := Strip(s);
    if r != "" {
      assert LeadingSpaces(r) == 0;
      assert r[0..] == r;
      assert TrailingStart(r) == |r|;
    }
  }

  /** Python's `s.startswith(p)`. */
  predicate StartsWith(s: string, p: string) {
    |p| <= |s| && s[..|p|] == p
  }

  /** Python's `sub in s`. */
  predicate Contains(s: string, sub: string)
    decreases |s|
  {
    StartsWith(s, sub) || (|s| > 0 && Contains(s[1..], sub))
  }

  lemma {:induction false} ContainsAt(s: string, sub: string, i: nat)
    requires i + |sub| <= |s| && s[i..i + |sub|] == sub
    ensures Contains(s, sub)
    decreases i
  {
    if i > 0 {
      assert s[1..][i - 1..i - 1 + |sub|] == s[i..i + |sub|];
      ContainsAt(s[1..], sub, i - 1);
    }
  }

  /** The smaller of two numbers. */
  function Min(a: int, b: int): (r: int)
    ensures r <= a && r <= b && (r == a || r == b)
  {
    if a <= b then a else b
  }

  /** Regrouping a concatenation, for loops that extend an accumulator by a
      block and leave the rest to a recursive definition. */
  lemma AppendAssoc<T>(a: seq<T>, b: seq<T>, c: seq<T>)
    ensures a + (b + c) == (a + b) + c
  {
  }

  /** Python's `sep.join(parts)`. */
  function Join(parts: seq<string>, sep: string): (r: string)
    ensures |parts| > 0 ==> StartsWith(r, parts[0])
    ensures |parts| > 0 ==> |parts[|parts| - 1]| <= |r| && r[|r| - |parts[|parts| - 1]|..] == parts[|parts| - 1]
  {
    if |parts| == 0 then ""
    else if |parts| == 1 then parts[0]
    else
      var rest := Join(parts[1..], sep);
      assert parts[1..][|parts[1..]| - 1] == parts[|parts| - 1];
      parts[0] + sep + rest
  }

  /** The last `n` characters of a string ending with `t` are those of `t`. */
  lemma SuffixOfSuffix(s: string, t: string, n: nat)
    requires |t| <= |s| && s[|s| - |t|..] == t && n <= |t|
    ensures s[|s| - n..] == t[|t| - n..]
  {
    var u, v, w := s[|s| - n..], t[|t| - n..], s[|s| - |t|..];
    forall k | 0 <= k < |u| ensures u[k] == v[k] {
      assert u[k] == w[|t| - n + k];
    }
  }

  lemma {:induction false} JoinAppend(parts: seq<string>, p: string, sep: string)
    requires |parts| > 0
    ensures Join(parts + [p], sep) == Join(parts, sep) + sep + p
    decreases |parts|
  {
    var q := parts + [p];
    if |parts| == 1 {
      assert q[1..] == [p];
    } else {
      var rest := parts[1..];
      assert q[1..] == rest + [p];
      JoinAppend(rest, p, sep);
      assert Join(q, sep) == parts[0] + sep + (Join(rest, sep) + sep + p);
      assert Join(parts, sep) == parts[0] + sep + Join(rest, sep);
    }
  }

  function DigitChar(d: nat): (c: char)
    requires d < 10
    ensures '0' <= c <= '9'
  {
    (48 + d) as char
  }

  predicate IsDigit(c: char) {
    '0' <= c <= '9'
  }

  /** The value of a digit character. */
  function DigitValue(c: char): int {
    c as int - 48
  }

  /** The number a string of decimal digits spells, most significant digit
      first. */
  function DigitsValue(s: string): int {
    if |s| == 0 then 0 else 10 * DigitsValue(s[..|s| - 1]) + DigitValue(s[|s| - 1])
  }

  /** The decimal digits of `n`, as Python's `str(n)` or `f"{n}"` writes them:
      digits that spell `n`, without a leading zero unless `n` is 0. */
  function NatToString(n: nat): (r: string)
    ensures |r| > 0
    ensures forall k :: 0 <= k < |r| ==> IsDigit(r[k])
    ensures DigitsValue(r) == n
    ensures r[0] == '0' <==> n == 0
    ensures |r| == 1 <==> n < 10
  {
    if n < 10 then [DigitChar(n)]
    else
      var r := NatToString(n / 10) + [DigitChar(n % 10)];
      assert r[..|r| - 1] == NatToString(n / 10);
      r
  }

  /** Different numbers are written differently. */
  lemma {:induction false} NatToStringInjective(m: nat, n: nat)
    requires NatToString(m) == NatToString(n)
    ensures m == n
  {
    if m >= 10 && n >= 10 {
      var a, b := NatToString(m), NatToString(n);
      assert a[..|a| - 1] == NatToString(m / 10);
      assert b[..|b| - 1] == NatToString(n / 10);
      NatToStringInjective(m / 10, n / 10);
      assert DigitChar(m % 10) == a[|a| - 1] == b[|b| - 1] == DigitChar(n % 10);
    }
  }

  /** The length of the run of digits in `w` that starts at position `p`. */
  function DigitsFrom(w: string, p: nat): nat
    decreases |w| - p
  {
    if p < |w| && IsDigit(w[p]) then 1 + DigitsFrom(w, p + 1) else 0
  }

  lemma {:induction false} DigitsFromNumbered(w: string, p: nat, a: string, k: nat)
    requires p + |a| < |w| && w[p..p + |a|] == a && !IsDigit(w[p + |a|])
    requires forall q :: 0 <= q < |a| ==> IsDigit(a[q])
    requires k <= |a|
    ensures DigitsFrom(w, p + k) == |a| - k
    decreases |a| - k
  {
    if k < |a| {
      assert w[p + k] == a[k];
      DigitsFromNumbered(w, p, a, k + 1);
    }
  }

  /** A number followed by a non-digit can be read back: `prefix + str(i) + c + ...` determines `i`. */
  lemma NumberedInjective(prefix: string, m: nat, n: nat, c: char, x: string, y: string)
    requires !IsDigit(c)
    requires prefix + NatToString(m) + [c] + x == prefix + NatToString(n) + [c] + y
    ensures m == n
  {
    var a, b := NatToString(m), NatToString(n);
    var w := prefix + a + [c] + x;
    var p := |prefix|;
    assert w[p..p + |a|] == a && w[p + |a|] == c;
    DigitsFromNumbered(w, p, a, 0);
    var v := prefix + b + [c] + y;
    assert v[p..p + |b|] == b && v[p + |b|] == c;
    DigitsFromNumbered(v, p, b, 0);
    assert |a| == |b|;
    assert a == w[p..p + |a|] == v[p..p + |b|] == b;
    NatToStringInjective(m, n);
  }
}
