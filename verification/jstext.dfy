/**
  The JavaScript string operations the program relies on: number-to-string
  conversion, `parseInt`, `padStart`, `trim`, `split` on one character and
  `includes`.  Strings are sequences of characters.
 */
module JsText {
  import opened Base

  predicate IsDigit(c: char) {
    '0' <= c <= '9'
  }

  predicate AllDigits(s: string) {
    forall k :: 0 <= k < |s| ==> IsDigit(s[k])
  }

  function DigitChar(d: nat): (c: char)
    requires d < 10
    ensures IsDigit(c)
  {
    ('0' as int + d) as char
  }

  /** The value of a decimal digit character (other characters are never read). */
  function DigitValue(c: char): int {
    c as int - '0' as int
  }

  /** The value of a string of decimal digits, read left to right. */
  function DigitsValue(s: string): int {
    if |s| == 0 then 0 else DigitsValue(s[..|s| - 1]) * 10 + DigitValue(s[|s| - 1])
  }

  /** `n.toString()` for a non-negative integer: its decimal digits, no leading zero. */
  function NatToString(n: nat): (s: string)
    ensures |s| >= 1 && AllDigits(s)
    ensures |s| == 1 <==> n < 10
    ensures |s| == 2 <==> 10 <= n < 100
    ensures |s| > 1 ==> s[0] != '0'
  {
    if n < 10 then [DigitChar(n)] else NatToString(n / 10) + [DigitChar(n % 10)]
  }

  /** `i.toString()` for any integer. */
  function IntToString(i: int): string {
    if i < 0 then "-" + NatToString(-i) else NatToString(i)
  }

  lemma {:induction false} NatToStringValue(n: nat)
    ensures DigitsValue(NatToString(n)) == n
  {
    if n >= 10 {
      var p := NatToString(n / 10);
      var s := p + [DigitChar(n % 10)];
      assert s[..|s| - 1] == p;
      NatToStringValue(n / 10);
    }
  }

  /** The characters `parseInt` skips before the number: ECMAScript white space and line terminators. */
  predicate IsWhitespace(c: char) {
    var k := c as int;
    k == 0x09 || k == 0x0A || k == 0x0B || k == 0x0C || k == 0x0D || k == 0x20
    || k == 0xA0 || k == 0x1680 || (0x2000 <= k <= 0x200A) || k == 0x2028 || k == 0x2029
    || k == 0x202F || k == 0x205F || k == 0x3000 || k == 0xFEFF
  }

  predicate IsBlank(s: string) {
    forall k :: 0 <= k < |s| ==> IsWhitespace(s[k])
  }

  /** `s` without its leading white space. */
  function DropLeading(s: string): string {
    if |s| > 0 && IsWhitespace(s[0]) then DropLeading(s[1..]) else s
  }

  /** `s` without its trailing white space. */
  function DropTrailing(s: string): string {
    if |s| > 0 && IsWhitespace(s[|s| - 1]) then DropTrailing(s[..|s| - 1]) else s
  }

  lemma {:induction false} DropLeadingSpec(s: string)
    ensures var r := DropLeading(s);
      && |r| <= |s| && r == s[|s| - |r|..]
      && IsBlank(s[..|s| - |r|])
      && (|r| > 0 ==> !IsWhitespace(r[0]))
  {
    if |s| > 0 && IsWhitespace(s[0]) {
      DropLeadingSpec(s[1..]);
    }
  }

  lemma {:induction false} DropTrailingSpec(s: string)
    ensures var r := DropTrailing(s);
      && |r| <= |s| && r == s[..|r|]
      && IsBlank(s[|r|..])
      && (|r| > 0 ==> !IsWhitespace(r[|r| - 1]))
  {
    if |s| > 0 && IsWhitespace(s[|s| - 1]) {
      DropTrailingSpec(s[..|s| - 1]);
    }
  }

  /** `s.trim()`. */
  function Trim(s: string): string {
    DropTrailing(DropLeading(s))
  }

  /** A string trims to the empty string exactly when it is all white space. */
  lemma TrimEmptyIffBlank(s: string)
    ensures |Trim(s)| == 0 <==> IsBlank(s)
  {
    DropLeadingSpec(s);
    DropTrailingSpec(DropLeading(s));
  }

  /** Number of leading decimal digits of `s`. */
  function DigitPrefixLen(s: string): (k: nat)
    ensures k <= |s|
  {
    if |s| > 0 && IsDigit(s[0]) then 1 + DigitPrefixLen(s[1..]) else 0
  }

  /**
    `parseInt(s)`: skip white space, take an optional sign, then the longest run of
    decimal digits; `None` stands for `NaN`, the result when there is no digit.
   */
  function ParseInt(s: string): Option<int> {
    ParseSigned(DropLeading(s))
  }

  /** `parseInt` after the white space: one optional sign, then the digits. */
  function ParseSigned(t: string): Option<int> {
    if |t| > 0 && t[0] == '-' then Negate(ParseUnsigned(t[1..]))
    else if |t| > 0 && t[0] == '+' then ParseUnsigned(t[1..])
    else ParseUnsigned(t)
  }

  /** The value of the leading run of digits, `None` when there is none. */
  function ParseUnsigned(u: string): Option<int> {
    var k := DigitPrefixLen(u);
    if k == 0 then None else Some(DigitsValue(u[..k]))
  }

  /** What `parseInt` reads digits from: the text after one optional sign. */
  function Unsigned(t: string): string {
    if |t| > 0 && (t[0] == '-' || t[0] == '+') then t[1..] else t
  }

  /** `parseInt` gives `NaN` exactly when no digit follows the white space and the optional sign. */
  lemma ParseIntNaNIff(s: string)
    ensures ParseInt(s).None? <==> DigitPrefixLen(Unsigned(DropLeading(s))) == 0
  {
  }

  function Negate(v: Option<int>): Option<int> {
    match v
    case None => None
    case Some(x) => Some(-x)
  }

  lemma {:induction false} DigitPrefixOfDigits(p: string, t: string)
    requires AllDigits(p)
    requires |t| == 0 || !IsDigit(t[0])
    ensures DigitPrefixLen(p + t) == |p|
  {
    if |p| > 0 {
      assert (p + t)[1..] == p[1..] + t;
      DigitPrefixOfDigits(p[1..], t);
    }
  }

  /** A run of digits followed by a non-digit reads as the run. */
  lemma ParseDigits(p: string, t: string)
    requires |p| >= 1 && AllDigits(p)
    requires |t| == 0 || !IsDigit(t[0])
    ensures ParseUnsigned(p + t) == Some(DigitsValue(p))
  {
    DigitPrefixOfDigits(p, t);
    assert (p + t)[..|p|] == p;
  }

  lemma DropLeadingNone(s: string)
    requires |s| == 0 || !IsWhitespace(s[0])
    ensures DropLeading(s) == s
  {
  }

  /** `parseInt` reads a run of digits, followed by anything but a digit, as the run's value. */
  lemma ParseIntOfDigits(p: string, t: string)
    requires |p| >= 1 && AllDigits(p)
    requires |t| == 0 || !IsDigit(t[0])
    ensures ParseInt(p + t) == Some(DigitsValue(p))
  {
    assert IsDigit(p[0]) && (p + t)[0] == p[0];
    DropLeadingNone(p + t);
    ParseDigits(p, t);
  }

  lemma ParseIntOfNat(n: nat, t: string)
    requires |t| == 0 || !IsDigit(t[0])
    ensures ParseInt(NatToString(n) + t) == Some(n)
  {
    var p := NatToString(n);
    assert (p + t)[0] == p[0];
    DropLeadingNone(p + t);
    ParseDigits(p, t);
    NatToStringValue(n);
  }

  lemma ParseIntOfNegative(n: nat, t: string)
    requires |t| == 0 || !IsDigit(t[0])
    ensures ParseInt("-" + (NatToString(n) + t)) == Some(-(n as int))
  {
    var x := NatToString(n) + t;
    DropLeadingNone("-" + x);
    assert ("-" + x)[1..] == x;
    ParseDigits(NatToString(n), t);
    NatToStringValue(n);
  }

  /** `parseInt` reads back the decimal form of any integer, whatever non-digit text follows it. */
  lemma ParseIntOfDecimal(i: int, t: string)
    requires |t| == 0 || !IsDigit(t[0])
    ensures ParseInt(IntToString(i) + t) == Some(i)
  {
    if i < 0 {
      assert IntToString(i) + t == "-" + (NatToString(-i) + t);
      ParseIntOfNegative(-i, t);
    } else {
      ParseIntOfNat(i, t);
    }
  }

  /** `s.padStart(2, '0')`. */
  function PadStart2(s: string): (r: string)
    ensures |r| == if |s| >= 2 then |s| else 2
    ensures r[|r| - |s|..] == s
    ensures forall k :: 0 <= k < |r| - |s| ==> r[k] == '0'
  {
    if |s| >= 2 then s else seq(2 - |s|, _ => '0') + s
  }

  /** `s.split(sep)`: the pieces between occurrences of `sep`, always at least one. */
  function Split(s: string, sep: char): (parts: seq<string>)
    ensures |parts| >= 1
  {
    if |s| == 0 then [""]
    else if s[0] == sep then [""] + Split(s[1..], sep)
    else
      var rest := Split(s[1..], sep);
      [[s[0]] + rest[0]] + rest[1..]
  }

  lemma {:induction false} SplitWithoutSeparator(a: string, sep: char)
    requires sep !in a
    ensures Split(a, sep) == [a]
  {
    if |a| > 0 {
      assert a[1..] + [] == a[1..];
      SplitWithoutSeparator(a[1..], sep);
      assert [a[0]] + a[1..] == a;
    }
  }

  lemma {:induction false} SplitAtSeparator(a: string, sep: char, b: string)
    requires sep !in a
    ensures Split(a + [sep] + b, sep) == [a] + Split(b, sep)
  {
    var s := a + [sep] + b;
    if |a| == 0 {
      assert s[1..] == b;
    } else {
      assert s[1..] == a[1..] + [sep] + b;
      SplitAtSeparator(a[1..], sep, b);
      assert [a[0]] + a[1..] == a;
    }
  }

  /** `s` begins with `t`, compared character by character. */
  function StartsWith(s: string, t: string): bool
    decreases |t|
  {
    |t| == 0 || (|s| > 0 && s[0] == t[0] && StartsWith(s[1..], t[1..]))
  }

  /** `s.includes(t)`: `t` occurs somewhere in `s`. */
  function Includes(s: string, t: string): bool
    decreases |s|
  {
    StartsWith(s, t) || (|s| > 0 && Includes(s[1..], t))
  }

  lemma {:induction false} StartsWithSelf(t: string, u: string)
    ensures StartsWith(t + u, t)
    decreases |t|
  {
    if |t| > 0 {
      assert (t + u)[1..] == t[1..] + u;
      StartsWithSelf(t[1..], u);
    }
  }

  lemma {:induction false} IncludesSuffix(a: string, t: string)
    ensures Includes(a + t, t)
    decreases |a|
  {
    if |a| > 0 {
      assert (a + t)[1..] == a[1..] + t;
      IncludesSuffix(a[1..], t);
    } else {
      assert a + t == t + [];
      StartsWithSelf(t, []);
    }
  }

  lemma {:induction false} NotIncludes(s: string, t: string)
    requires |t| > 0 && t[0] !in s
    ensures !Includes(s, t)
    decreases |s|
  {
    if |s| > 0 {
      NotIncludes(s[1..], t);
    }
  }
}
