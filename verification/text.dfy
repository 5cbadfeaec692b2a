/** The string primitives the ingestion code leans on: `char.IsWhiteSpace`,
    `string.IsNullOrWhiteSpace`, `Trim`, `char.IsLetterOrDigit`, upper-casing,
    ordinal case-insensitive comparison, `int.ToString` and `int.TryParse`.

    Letters, digits and case mapping are modelled for ASCII only; white space
    is the full set `char.IsWhiteSpace` recognises. */
module Text {
  import opened Wrappers

  /** `char.IsWhiteSpace`: the Unicode White_Space characters of .NET. */
  predicate IsWhiteSpace(c: char) {
    || ('\t' <= c <= '\r')
    || c == ' ' || c == '\U{85}' || c == '\U{A0}' || c == '\U{1680}'
    || ('\U{2000}' <= c <= '\U{200A}')
    || c == '\U{2028}' || c == '\U{2029}' || c == '\U{202F}' || c == '\U{205F}' || c == '\U{3000}'
  }

  /** `string.IsNullOrWhiteSpace`. */
  predicate IsBlank(s: Option<string>) {
    match s
    case None => true
    case Some(v) => forall i :: 0 <= i < |v| ==> IsWhiteSpace(v[i])
  }

  /** Length of the longest prefix of `s` made of characters satisfying `p`. */
  function LeadingCount(s: string, p: char -> bool): (n: nat)
    ensures n <= |s|
    ensures forall i :: 0 <= i < n ==> p(s[i])
    ensures n < |s| ==> !p(s[n])
  {
    if |s| == 0 || !p(s[0]) then 0 else 1 + LeadingCount(s[1..], p)
  }

  /** Length of the longest suffix of `s` made of characters satisfying `p`. */
  function TrailingCount(s: string, p: char -> bool): (n: nat)
    ensures n <= |s|
    ensures forall i :: |s| - n <= i < |s| ==> p(s[i])
    ensures n < |s| ==> !p(s[|s| - 1 - n])
  {
    if |s| == 0 || !p(s[|s| - 1]) then 0 else 1 + TrailingCount(s[..|s| - 1], p)
  }

  /** Removes the characters satisfying `p` from both ends of `s`. */
  function TrimBy(s: string, p: char -> bool): (r: string)
    ensures |r| <= |s|
    ensures r == [] || (!p(r[0]) && !p(r[|r| - 1]))
    ensures LeadingCount(s, p) + |r| <= |s|
    ensures s[LeadingCount(s, p)..LeadingCount(s, p) + |r|] == r
    ensures forall k :: LeadingCount(s, p) + |r| <= k < |s| ==> p(s[k])
  {
    var lead := LeadingCount(s, p);
    var rest := s[lead..];
    var r := rest[..|rest| - TrailingCount(rest, p)];
    assert s[lead..lead + |r|] == r;
    r
  }

  /** `string.Trim()`. */
  function Trim(s: string): string {
    TrimBy(s, IsWhiteSpace)
  }

  /** A string is null-or-white-space exactly when trimming empties it. */
  lemma TrimEmptyIffBlank(s: string)
    ensures IsBlank(Some(s)) <==> Trim(s) == []
  {
    var r := Trim(s);
    var i := LeadingCount(s, IsWhiteSpace);
    if r == [] {
      assert forall k :: 0 <= k < |s| ==> IsWhiteSpace(s[k]) by {
        forall k | 0 <= k < |s| ensures IsWhiteSpace(s[k]) {
          if k < i {} else {}
        }
      }
    } else {
      assert s[i] == r[0];
    }
  }

  /** Trimming a trimmed string changes nothing. */
  lemma TrimIdempotent(s: string)
    ensures Trim(Trim(s)) == Trim(s)
  {
    var r := Trim(s);
    if r != [] {
      assert LeadingCount(r, IsWhiteSpace) == 0;
      assert TrailingCount(r, IsWhiteSpace) == 0;
      assert r[0..] == r;
    }
  }

  /** `char.IsLetterOrDigit`, restricted to ASCII. */
  predicate IsLetterOrDigit(c: char) {
    ('a' <= c <= 'z') || ('A' <= c <= 'Z') || ('0' <= c <= '9')
  }

  /** An ASCII upper-case letter or a digit: what upper-casing a letter or digit yields. */
  predicate IsUpperOrDigit(c: char) {
    ('A' <= c <= 'Z') || ('0' <= c <= '9')
  }

  /** Upper-casing one character, restricted to ASCII: `char.ToUpperInvariant`,
      and `char.ToUpper` with the current culture taken as invariant. */
  function ToUpper(c: char): (u: char)
    ensures IsLetterOrDigit(c) <==> IsUpperOrDigit(u)
    ensures IsUpperOrDigit(c) ==> u == c
  {
    if 'a' <= c <= 'z' then (c as int - 32) as char else c
  }

  /** `string.ToUpperInvariant()`, and `string.ToUpper()` with the current
      culture taken as invariant, character by character. */
  function Upper(s: string): (r: string)
    ensures |r| == |s|
    ensures forall i :: 0 <= i < |s| ==> r[i] == ToUpper(s[i])
  {
    seq(|s|, i requires 0 <= i < |s| => ToUpper(s[i]))
  }

  /** `string.Equals(a, b, StringComparison.OrdinalIgnoreCase)`. */
  predicate EqualsIgnoreCase(a: string, b: string) {
    Upper(a) == Upper(b)
  }

  // ---- integers ------------------------------------------------------------

  const Int32Min: int := -0x8000_0000
  const Int32Max: int := 0x7FFF_FFFF

  predicate IsInt32(n: int) {
    Int32Min <= n <= Int32Max
  }

  /** A 32-bit signed integer, as `JsonElement.GetInt32` returns. */
  type Int32 = n: int | IsInt32(n)

  predicate IsDigit(c: char) {
    '0' <= c <= '9'
  }

  predicate AllDigits(s: string) {
    forall i :: 0 <= i < |s| ==> IsDigit(s[i])
  }

  function DigitChar(d: nat): (c: char)
    requires d < 10
    ensures IsDigit(c)
  {
    ('0' as int + d) as char
  }

  function DigitValue(c: char): (d: nat)
    requires IsDigit(c)
    ensures d < 10
  {
    c as int - '0' as int
  }

  /** The decimal rendering of a natural number, without leading zeros. */
  function NatToString(n: nat): (r: string)
    ensures |r| >= 1 && AllDigits(r)
    ensures r[0] == '0' <==> n == 0
    ensures |r| > 1 ==> r[0] != '0'
    decreases n
  {
    if n < 10 then [DigitChar(n)] else NatToString(n / 10) + [DigitChar(n % 10)]
  }

  /** `int.ToString()` under the invariant culture. */
  function IntToString(n: int): string {
    if n < 0 then "-" + NatToString(-n) else NatToString(n)
  }

  /** The value of a string of decimal digits, read most significant first. */
  function DigitsValue(s: string): nat
    requires AllDigits(s)
  {
    if |s| == 0 then 0 else DigitsValue(s[..|s| - 1]) * 10 + DigitValue(s[|s| - 1])
  }

  lemma {:induction false} DigitsValueOfNatToString(n: nat)
    ensures DigitsValue(NatToString(n)) == n
    decreases n
  {
    var r := NatToString(n);
    if n >= 10 {
      DigitsValueOfNatToString(n / 10);
      assert r[..|r| - 1] == NatToString(n / 10);
    }
  }

  /** The white space `int.TryParse` skips around a number (NumberStyles.Integer). */
  predicate IsNumberWhite(c: char) {
    ('\t' <= c <= '\r') || c == ' '
  }

  /** `t` is an optional `-` or `+` followed by one or more decimal digits,
      and `v` is the number it denotes (leading zeros allowed). */
  predicate SignedDigits(t: string, v: int) {
    || (|t| > 0 && AllDigits(t) && v == DigitsValue(t))
    || (|t| > 1 && t[0] == '+' && AllDigits(t[1..]) && v == DigitsValue(t[1..]))
    || (|t| > 1 && t[0] == '-' && AllDigits(t[1..]) && v == -(DigitsValue(t[1..]) as int))
  }

  /** `s[a..b]` is a signed number denoting `v`, with only number white space
      before and after it. */
  predicate NumberAt(s: string, a: nat, b: nat, v: int) {
    && a < b <= |s|
    && (forall i :: 0 <= i < a ==> IsNumberWhite(s[i]))
    && (forall i :: b <= i < |s| ==> IsNumberWhite(s[i]))
    && SignedDigits(s[a..b], v)
  }

  /** The whole of `s` spells the integer `v` in the format `int.TryParse`
      accepts (NumberStyles.Integer), whatever its size. */
  ghost predicate Spells(s: string, v: int) {
    exists a: nat, b: nat :: NumberAt(s, a, b, v)
  }

  /** `int.TryParse(s, out v)`: surrounding number white space, an optional
      sign, at least one decimal digit, and a value that fits in 32 bits. */
  function ParseInt32(s: string): (r: Option<int>)
    ensures r.Some? ==> IsInt32(r.value)
    ensures r.Some? ==> Spells(s, r.value)
  {
    var t := TrimBy(s, IsNumberWhite);
    if |t| == 0 then None
    else
      var digits := if t[0] == '-' || t[0] == '+' then t[1..] else t;
      if |digits| == 0 || !AllDigits(digits) then None
      else
        var magnitude: int := DigitsValue(digits);
        var v := if t[0] == '-' then -magnitude else magnitude;
        if IsInt32(v) then
          var i := LeadingCount(s, IsNumberWhite);
          assert SignedDigits(t, v);
          assert NumberAt(s, i, i + |t|, v);
          Some(v)
        else None
  }

  /** The number a string spells is determined by the string. */
  lemma SignedDigitsUnique(t: string, v: int, w: int)
    requires SignedDigits(t, v) && SignedDigits(t, w)
    ensures v == w
  {
  }

  /** Where a spelled number sits in `s` is determined by `s`: it is what
      trimming number white space leaves. */
  lemma NumberAtIsTrimmed(s: string, a: nat, b: nat, v: int)
    requires NumberAt(s, a, b, v)
    ensures a == LeadingCount(s, IsNumberWhite)
    ensures s[a..b] == TrimBy(s, IsNumberWhite)
  {
    var t := s[a..b];
    assert s[a] == t[0] && s[b - 1] == t[|t| - 1];
    assert !IsNumberWhite(s[a]) && !IsNumberWhite(s[b - 1]);
    var n := LeadingCount(s, IsNumberWhite);
    var r := TrimBy(s, IsNumberWhite);
    assert n == a;
    assert r != [];
    assert s[n + |r| - 1] == r[|r| - 1];
    assert n + |r| == b;
  }

  /** A string spelling an Int32 parses to it. */
  lemma ParseSpelled(s: string, a: nat, b: nat, v: int)
    requires NumberAt(s, a, b, v) && IsInt32(v)
    ensures ParseInt32(s) == Some(v)
  {
    NumberAtIsTrimmed(s, a, b, v);
    var t := s[a..b];
    var digits := if t[0] == '-' || t[0] == '+' then t[1..] else t;
    assert AllDigits(digits);
    var magnitude: int := DigitsValue(digits);
    var u := if t[0] == '-' then -magnitude else magnitude;
    assert SignedDigits(t, u);
    SignedDigitsUnique(t, u, v);
  }

  /** `int.TryParse` succeeds with `v` exactly when the whole string spells
      `v` and `v` fits in 32 bits. */
  lemma ParseInt32Meaning(s: string, v: int)
    ensures ParseInt32(s) == Some(v) <==> Spells(s, v) && IsInt32(v)
  {
    if Spells(s, v) && IsInt32(v) {
      var a: nat, b: nat :| NumberAt(s, a, b, v);
      ParseSpelled(s, a, b, v);
    }
  }

  /** `int.TryParse` fails exactly when the string spells no Int32: it is
      not a signed run of digits inside number white space, or its value is
      out of range. */
  lemma ParseInt32Fails(s: string)
    ensures ParseInt32(s).None? <==> forall v :: Spells(s, v) ==> !IsInt32(v)
  {
    if ParseInt32(s).None? {
      forall v | Spells(s, v) ensures !IsInt32(v) {
        ParseInt32Meaning(s, v);
      }
    }
  }

  /** Trimming a string whose two ends are already kept leaves it as it is. */
  lemma TrimByKeeps(s: string, p: char -> bool)
    requires |s| > 0 && !p(s[0]) && !p(s[|s| - 1])
    ensures TrimBy(s, p) == s
  {
    assert LeadingCount(s, p) == 0;
    assert s[0..] == s;
    assert TrailingCount(s, p) == 0;
  }

  /** Parsing what `int.ToString()` printed gives the number back. */
  lemma ParseInt32RoundTrip(n: int)
    requires IsInt32(n)
    ensures ParseInt32(IntToString(n)) == Some(n)
  {
    var s := IntToString(n);
    var m := if n < 0 then -n else n;
    var digits := NatToString(m);
    DigitsValueOfNatToString(m);
    if n < 0 {
      assert s[1..] == digits;
    }
    assert s[0..|s|] == s;
    assert SignedDigits(s, n);
    ParseSpelled(s, 0, |s|, n);
  }

}
