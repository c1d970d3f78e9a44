/**
 * The JavaScript string operations the core relies on: `String.prototype.trim`,
 * a case-insensitive literal prefix test as done by a regular expression with the
 * `i` flag, `String.prototype.includes`, the decimal rendering of a non-negative
 * integer (template literals) and `parseInt` with the default radix.
 */
module Text {
  import opened Types

  /** The characters `trim` removes: ECMAScript WhiteSpace and LineTerminator. */
  predicate IsJsWhitespace(c: char)
  {
    c == '\t' || c == '\n' || c == '\U{000B}' || c == '\U{000C}' || c == '\r' || c == ' '
    || c == '\U{00A0}' || c == '\U{1680}' || ('\U{2000}' <= c <= '\U{200A}')
    || c == '\U{2028}' || c == '\U{2029}' || c == '\U{202F}' || c == '\U{205F}'
    || c == '\U{3000}' || c == '\U{FEFF}'
  }

  /** Drops leading whitespace: the result is the suffix starting at the first non-blank. */
  function TrimStart(s: string): (r: string)
    ensures |r| <= |s| && r == s[|s| - |r|..]
    ensures forall i :: 0 <= i < |s| - |r| ==> IsJsWhitespace(s[i])
    ensures r == [] || !IsJsWhitespace(r[0])
  {
    if s != [] && IsJsWhitespace(s[0]) then TrimStart(s[1..]) else s
  }

  /** Drops trailing whitespace: the result is the prefix ending at the last non-blank. */
  function TrimEnd(s: string): (r: string)
    ensures |r| <= |s| && r == s[..|r|]
    ensures forall i :: |r| <= i < |s| ==> IsJsWhitespace(s[i])
    ensures r == [] || !IsJsWhitespace(r[|r| - 1])
  {
    if s != [] && IsJsWhitespace(s[|s| - 1]) then TrimEnd(s[..|s| - 1]) else s
  }

  /** `s.trim()`: a piece of `s` with no blank at either end. */
  function Trim(s: string): (r: string)
    ensures |r| <= |s|
    ensures r != [] ==> !IsJsWhitespace(r[0]) && !IsJsWhitespace(r[|r| - 1])
  {
    var t := TrimStart(s);
    var r := TrimEnd(t);
    assert r != [] ==> r[0] == t[0];
    r
  }

  /** Trimming yields the empty string exactly when the text is all whitespace. */
  lemma TrimEmptyIffBlank(s: string)
    ensures Trim(s) == [] <==> forall i :: 0 <= i < |s| ==> IsJsWhitespace(s[i])
  {
  }

  /** Trimming is the identity on text with no blank at either end, and hence idempotent. */
  lemma TrimFixed(s: string)
    requires s != [] ==> !IsJsWhitespace(s[0]) && !IsJsWhitespace(s[|s| - 1])
    ensures Trim(s) == s
  {
  }

  /**
   * ASCII lower-casing. A non-Unicode regular expression with the `i` flag folds
   * case only between ASCII letters when the pattern is ASCII.
   */
  function AsciiLower(c: char): (r: char)
    ensures 'A' <= c <= 'Z' ==> 'a' <= r <= 'z' && r as int - c as int == 32
    ensures !('A' <= c <= 'Z') ==> r == c
  {
    if 'A' <= c <= 'Z' then (c as int + 32) as char else c
  }

  /**
   * Which characters the `i` flag matches against a pattern character `l`: a
   * lower-case letter matches itself and its capital, any other character
   * that is not a capital matches only itself.
   */
  lemma AsciiLowerPreimage(c: char, l: char)
    ensures 'a' <= l <= 'z' ==> (AsciiLower(c) == l <==> c == l || c as int == l as int - 32)
    ensures !('a' <= l <= 'z') && !('A' <= l <= 'Z') ==> (AsciiLower(c) == l <==> c == l)
  {
  }

  /** `s` begins with the lower-case ASCII literal `p`, ignoring ASCII case. */
  predicate StartsWithIgnoreCase(s: string, p: string)
  {
    |p| <= |s| && forall i :: 0 <= i < |p| ==> AsciiLower(s[i]) == p[i]
  }

  /** `s.includes(sub)`: `sub` occurs somewhere in `s` as a contiguous piece. */
  predicate Includes(s: string, sub: string)
    ensures sub == [] ==> Includes(s, sub)
    ensures Includes(s, sub) ==> |sub| <= |s|
    decreases |s|
  {
    (|sub| <= |s| && s[..|sub|] == sub) || (s != [] && Includes(s[1..], sub))
  }

  /** `Includes` agrees with the positional definition: some slice of `s` equals `sub`. */
  lemma {:induction false} IncludesAt(s: string, sub: string, k: nat)
    requires k + |sub| <= |s| && s[k..k + |sub|] == sub
    ensures Includes(s, sub)
  {
    if k > 0 {
      assert s[1..][k - 1..k - 1 + |sub|] == s[k..k + |sub|];
      IncludesAt(s[1..], sub, k - 1);
    }
  }

  /** Conversely, an occurrence found by `Includes` sits at some position of `s`. */
  lemma {:induction false} IncludesWitness(s: string, sub: string) returns (k: nat)
    requires Includes(s, sub)
    ensures k + |sub| <= |s| && s[k..k + |sub|] == sub
    decreases |s|
  {
    if |sub| <= |s| && s[..|sub|] == sub {
      k := 0;
    } else {
      var j := IncludesWitness(s[1..], sub);
      assert s[1..][j..j + |sub|] == s[j + 1..j + 1 + |sub|];
      k := j + 1;
    }
  }

  /** `sub` is not included when its first character occurs at no position where it could start. */
  lemma NotIncludesByFirstChar(s: string, sub: string)
    requires sub != []
    requires forall k :: 0 <= k && k + |sub| <= |s| ==> s[k] != sub[0]
    ensures !Includes(s, sub)
  {
    if Includes(s, sub) {
      var k := IncludesWitness(s, sub);
    }
  }

  /**
   * Splitting at a separator that digits never contain: equal texts of the
   * form `a + "-" + digits` have equal parts.
   */
  lemma SplitBeforeDigits(a1: string, d1: string, a2: string, d2: string)
    requires AllDigits(d1) && AllDigits(d2)
    requires a1 + "-" + d1 == a2 + "-" + d2
    ensures a1 == a2 && d1 == d2
  {
    var k := a1 + "-" + d1;
    // The separator sits just before each digit run, and no digit is a separator,
    // so neither run can be longer than the other.
    assert k[|k| - |d1| - 1] == '-' && k[|k| - |d2| - 1] == '-';
    forall i | |k| - |d2| <= i < |k|
      ensures IsDigit(k[i])
    {
      assert k[i] == d2[i - (|k| - |d2|)];
    }
    forall i | |k| - |d1| <= i < |k|
      ensures IsDigit(k[i])
    {
      assert k[i] == d1[i - (|k| - |d1|)];
    }
    assert |d1| == |d2|;
    assert d1 == k[|k| - |d1|..] == d2;
    assert a1 == k[..|a1|] == a2;
  }

  predicate IsDigit(c: char)
  {
    '0' <= c <= '9'
  }

  predicate AllDigits(s: string)
  {
    forall i :: 0 <= i < |s| ==> IsDigit(s[i])
  }

  function DigitChar(d: nat): (c: char)
    requires d < 10
    ensures IsDigit(c)
  {
    ('0' as int + d) as char
  }

  function DigitValue(c: char): (d: nat)
    requires IsDigit(c)
    ensures d < 10 && DigitChar(d) == c
  {
    c as int - '0' as int
  }

  /** The decimal text of a non-negative integer, as a template literal renders it. */
  function ToDecimal(n: nat): (r: string)
    ensures r != [] && AllDigits(r)
    ensures |r| > 1 ==> r[0] != '0'
    decreases n
  {
    if n < 10 then [DigitChar(n)] else ToDecimal(n / 10) + [DigitChar(n % 10)]
  }

  /** The value of a run of decimal digits. */
  function ParseDigits(s: string): nat
    requires AllDigits(s)
  {
    if s == [] then 0 else ParseDigits(s[..|s| - 1]) * 10 + DigitValue(s[|s| - 1])
  }

  /** Reading back the decimal text of `n` gives `n`. */
  lemma {:induction false} ParseToDecimal(n: nat)
    ensures ParseDigits(ToDecimal(n)) == n
    decreases n
  {
    var r := ToDecimal(n);
    if n >= 10 {
      assert r[..|r| - 1] == ToDecimal(n / 10);
      ParseToDecimal(n / 10);
    }
  }

  /** Distinct integers have distinct decimal texts. */
  lemma ToDecimalInjective(m: nat, n: nat)
    requires ToDecimal(m) == ToDecimal(n)
    ensures m == n
  {
    ParseToDecimal(m);
    ParseToDecimal(n);
  }

  /** The longest prefix of `s` made of decimal digits. */
  function DigitPrefix(s: string): (r: string)
    ensures |r| <= |s| && r == s[..|r|] && AllDigits(r)
    ensures |r| < |s| ==> !IsDigit(s[|r|])
  {
    if s != [] && IsDigit(s[0]) then [s[0]] + DigitPrefix(s[1..]) else []
  }

  /**
   * `parseInt(s)` on the text of a number input: an optional sign, then the
   * longest run of decimal digits; NaN when that run is empty. Everything after
   * the run (a fraction, an exponent) is ignored.
   */
  function ParseInt(s: string): (r: JsInt)
    ensures r.Int? <==> (s != [] && IsDigit(s[0]))
                        || (2 <= |s| && (s[0] == '-' || s[0] == '+') && IsDigit(s[1]))
    ensures r.Int? && r.value < 0 ==> s[0] == '-'
    ensures s != [] && AllDigits(s) ==> r == Int(ParseDigits(s))
  {
    assert AllDigits(s) ==> DigitPrefix(s) == s;
    var negative := s != [] && s[0] == '-';
    var body := if s != [] && (s[0] == '-' || s[0] == '+') then s[1..] else s;
    var digits := DigitPrefix(body);
    if digits == [] then NaN
    else if negative then Int(-(ParseDigits(digits) as int))
    else Int(ParseDigits(digits))
  }

  /** `parseInt` reads back the decimal text of any non-negative integer. */
  lemma ParseIntToDecimal(n: nat)
    ensures ParseInt(ToDecimal(n)) == Int(n)
  {
    var r := ToDecimal(n);
    assert DigitPrefix(r) == r;
    ParseToDecimal(n);
  }

  /** `parseInt` reads back the decimal text of a negative integer. */
  lemma ParseIntNegative(n: nat)
    ensures ParseInt("-" + ToDecimal(n)) == Int(-(n as int))
  {
    var r := ToDecimal(n);
    assert ("-" + r)[1..] == r;
    assert DigitPrefix(r) == r;
    ParseToDecimal(n);
  }

  /** The result of `parseInt` when the text begins with digits, and NaN when it begins with none. */
  lemma ParseIntCases(s: string)
    ensures s == [] ==> ParseInt(s) == NaN
    ensures s != [] && IsDigit(s[0]) ==> ParseInt(s).Int? && ParseInt(s).value >= 0
    ensures s != [] && !IsDigit(s[0]) && s[0] != '-' && s[0] != '+' ==> ParseInt(s) == NaN
  {
  }
}
