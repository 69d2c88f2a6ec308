/**
 * The pieces of the JavaScript runtime the blog's logic leans on, stated on
 * exact integers and strings of characters: the whitespace class used by
 * `\s` and by `Number.parseInt`, `Number.parseInt(s, 10)`, `String(n)` for an
 * integer `n`, `startsWith`, and a string order standing in for `localeCompare`.
 */
module JsText {
  import opened Wrappers
  import Seqs

  /** The characters ECMAScript counts as white space or line terminators. */
  predicate IsWhitespace(c: char) {
    || c == '\t' || c == '\n' || c == '\U{000B}' || c == '\U{000C}' || c == '\r' || c == ' '
    || c == '\U{00A0}' || c == '\U{1680}' || ('\U{2000}' <= c <= '\U{200A}')
    || c == '\U{2028}' || c == '\U{2029}' || c == '\U{202F}' || c == '\U{205F}'
    || c == '\U{3000}' || c == '\U{FEFF}'
  }

  predicate IsDigit(c: char) {
    '0' <= c <= '9'
  }

  predicate AllDigits(s: string) {
    forall i :: 0 <= i < |s| ==> IsDigit(s[i])
  }

  predicate StartsWith(s: string, prefix: string) {
    |prefix| <= |s| && s[..|prefix|] == prefix
  }

  /** `s.replace(/\s+/g, "")`: every white-space character removed, the rest kept in order. */
  function StripWhitespace(s: string): (r: string)
    ensures Seqs.IsSubsequence(r, s)
    ensures forall c :: multiset(r)[c] == if IsWhitespace(c) then 0 else multiset(s)[c]
    ensures forall i :: 0 <= i < |r| ==> !IsWhitespace(r[i])
    ensures (forall i :: 0 <= i < |s| ==> !IsWhitespace(s[i])) ==> r == s
  {
    if s == [] then []
    else
      var rest := StripWhitespace(s[1..]);
      assert s == [s[0]] + s[1..];
      if IsWhitespace(s[0]) then rest else [s[0]] + rest
  }

  /** Leading white space skipped, as `parseInt` does before reading a sign. */
  function TrimStart(s: string): string
  {
    if s != [] && IsWhitespace(s[0]) then TrimStart(s[1..]) else s
  }

  /** What `TrimStart` removes is a prefix of white space, and what it keeps does not start with any. */
  lemma {:induction false} TrimStartSkipsWhitespace(s: string)
    ensures var r := TrimStart(s);
            && |r| <= |s|
            && r == s[|s| - |r|..]
            && (r == [] || !IsWhitespace(r[0]))
            && forall i :: 0 <= i < |s| - |r| ==> IsWhitespace(s[i])
  {
    if s != [] && IsWhitespace(s[0]) {
      var t := s[1..];
      TrimStartSkipsWhitespace(t);
      var r := TrimStart(t);
      assert TrimStart(s) == r;
      assert t[|t| - |r|..] == s[|s| - |r|..];
      forall i | 0 <= i < |s| - |r| ensures IsWhitespace(s[i]) {
        if i > 0 { assert s[i] == t[i - 1]; }
      }
    }
  }

  /** The longest prefix of `s` made of decimal digits. */
  function LeadingDigits(s: string): (r: string)
    ensures StartsWith(s, r) && AllDigits(r)
    ensures |r| < |s| ==> !IsDigit(s[|r|])
  {
    if s != [] && IsDigit(s[0]) then [s[0]] + LeadingDigits(s[1..]) else []
  }

  /** The value of a string of decimal digits, most significant first. */
  function DigitsValue(ds: string): nat
    requires AllDigits(ds)
  {
    if ds == [] then 0 else DigitsValue(ds[..|ds| - 1]) * 10 + (ds[|ds| - 1] as int - '0' as int)
  }

  /**
   * `Number.parseInt(s, 10)` on exact integers: skip leading white space, read
   * an optional sign, then as many decimal digits as follow. `None` is NaN,
   * the result when no digit follows the sign.
   */
  function ParseInt(s: string): Option<int> {
    var t := TrimStart(s);
    var negative := t != [] && t[0] == '-';
    var unsigned := if t != [] && (t[0] == '-' || t[0] == '+') then t[1..] else t;
    var ds := LeadingDigits(unsigned);
    var magnitude: int := if ds == [] then 0 else DigitsValue(ds);
    if ds == [] then None
    else if negative then Some(-magnitude)
    else Some(magnitude)
  }

  function DigitChar(d: int): (c: char)
    requires 0 <= d < 10
    ensures IsDigit(c) && c as int - '0' as int == d
  {
    ('0' as int + d) as char
  }

  /** Decimal digits of a natural number, without leading zeros. */
  function NaturalString(n: nat): (r: string)
    ensures r != [] && AllDigits(r)
    ensures n > 0 ==> r[0] != '0'
    decreases n
  {
    if n < 10 then [DigitChar(n)] else NaturalString(n / 10) + [DigitChar(n % 10)]
  }

  /** `String(n)` for an integer `n`. */
  function DecimalString(n: int): (r: string)
    ensures r != []
    ensures n >= 0 ==> AllDigits(r) && (n > 0 ==> r[0] != '0')
    ensures n < 0 ==> r[0] == '-' && |r| >= 2 && AllDigits(r[1..]) && r[1] != '0'
  {
    if n < 0 then "-" + NaturalString(-n) else NaturalString(n)
  }

  lemma {:induction false} NaturalStringValue(n: nat)
    ensures DigitsValue(NaturalString(n)) == n
    decreases n
  {
    var r := NaturalString(n);
    if n >= 10 {
      NaturalStringValue(n / 10);
      assert r[..|r| - 1] == NaturalString(n / 10);
    }
  }

  lemma {:induction false} LeadingDigitsOfDigits(s: string)
    requires AllDigits(s)
    ensures LeadingDigits(s) == s
  {
    if s != [] {
      LeadingDigitsOfDigits(s[1..]);
    }
  }

  /** A run of digits, signed or not, reads as its value. */
  lemma ParseDigits(ds: string)
    requires ds != [] && AllDigits(ds)
    ensures ParseInt(ds) == Some(DigitsValue(ds))
    ensures ParseInt("-" + ds) == Some(-(DigitsValue(ds) as int))
  {
    LeadingDigitsOfDigits(ds);
    assert IsDigit(ds[0]);
    assert TrimStart(ds) == ds;
    var neg := "-" + ds;
    assert TrimStart(neg) == neg;
    assert neg[1..] == ds;
  }

  /** `parseInt(String(n), 10)` gives `n` back for every integer `n`. */
  lemma ParseDecimalRoundTrip(n: int)
    ensures ParseInt(DecimalString(n)) == Some(n)
  {
    var m := if n < 0 then -n else n;
    NaturalStringValue(m);
    ParseDigits(NaturalString(m));
  }

  /** A single decimal digit reads as its value. */
  lemma ParseDigit(d: int)
    requires 0 <= d < 10
    ensures ParseInt([DigitChar(d)]) == Some(d)
  {
    ParseDecimalRoundTrip(d);
    assert DecimalString(d) == [DigitChar(d)];
  }

  /** `Number.parseInt` on the numbers named in the blog's own examples. */
  lemma ParseIntExamples()
    ensures ParseInt("1") == Some(1)
    ensures ParseInt("3") == Some(3)
    ensures ParseInt("0") == Some(0)
    ensures ParseInt("-5") == Some(-5)
  {
    ParseDigit(1);
    assert [DigitChar(1)] == "1";
    ParseDigit(3);
    assert [DigitChar(3)] == "3";
    ParseDigit(0);
    assert [DigitChar(0)] == "0";
    ParseDecimalRoundTrip(-5);
    assert DecimalString(-5) == "-" + [DigitChar(5)] == "-5";
  }

  /** Text with no digit after the sign reads as NaN. */
  lemma ParseIntNaN()
    ensures ParseInt("abc") == None
    ensures ParseInt("") == None
  {
    assert TrimStart("abc") == "abc";
    assert LeadingDigits("abc") == [];
  }

  /**
   * The order the category sort falls back to. `localeCompare` depends on the
   * runtime's collation tables; this stand-in orders strings by their
   * characters, lexicographically, and answers -1, 0 or 1.
   */
  function LocaleCompare(a: string, b: string): (r: int)
    ensures -1 <= r <= 1
  {
    if a == [] && b == [] then 0
    else if a == [] then -1
    else if b == [] then 1
    else if a[0] < b[0] then -1
    else if a[0] > b[0] then 1
    else LocaleCompare(a[1..], b[1..])
  }

  lemma {:induction false} LocaleCompareZero(a: string, b: string)
    ensures LocaleCompare(a, b) == 0 <==> a == b
  {
    if a != [] && b != [] && a[0] == b[0] {
      LocaleCompareZero(a[1..], b[1..]);
      assert a == [a[0]] + a[1..] && b == [b[0]] + b[1..];
    }
  }

  lemma {:induction false} LocaleCompareAntisymmetric(a: string, b: string)
    ensures LocaleCompare(a, b) == -LocaleCompare(b, a)
  {
    if a != [] && b != [] && a[0] == b[0] {
      LocaleCompareAntisymmetric(a[1..], b[1..]);
    }
  }

  lemma {:induction false} LocaleCompareTransitive(a: string, b: string, c: string)
    requires LocaleCompare(a, b) <= 0 && LocaleCompare(b, c) <= 0
    ensures LocaleCompare(a, c) <= 0
  {
    if a != [] && b != [] && c != [] && a[0] == b[0] && b[0] == c[0] {
      LocaleCompareTransitive(a[1..], b[1..], c[1..]);
    }
  }
}
