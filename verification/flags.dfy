/**
  Flag emoji for country codes (`countryCodeToEmoji`, main.ts lines 49-67):
  the first two UTF-16 code units of the code, upper-cased, each shifted
  into the regional-indicator block, with a cache of earlier answers.
 */
module Flags {
  import opened Base

  /** The regional indicator for the letter A; the block runs to Z at 0x1F1FF. */
  const RegionalIndicatorA: int := 0x1F1E6

  /** The UTF-16 code units of one character: itself below 0x10000, else a surrogate pair. */
  function Units(c: char): (u: seq<int>)
    ensures 1 <= |u| <= 2
    ensures forall k :: 0 <= k < |u| ==> 0 <= u[k] < 0x10000
    ensures |u| == 1 <==> c as int < 0x10000
    ensures |u| == 1 ==> u[0] == c as int
  {
    var v := c as int;
    if v < 0x10000 then [v] else [0xD800 + (v - 0x10000) / 0x400, 0xDC00 + (v - 0x10000) % 0x400]
  }

  /** A string as JavaScript indexes it: a sequence of UTF-16 code units. */
  function Utf16(s: string): (u: seq<int>)
    ensures |u| >= |s|
    ensures forall k :: 0 <= k < |u| ==> 0 <= u[k] < 0x10000
  {
    if |s| == 0 then [] else Units(s[0]) + Utf16(s[1..])
  }

  /** `toUpperCase` on one code unit; only the letters a-z change. */
  function UpperUnit(u: int): (r: int)
    ensures 'a' as int <= u <= 'z' as int ==> r == u - 32
    ensures !('a' as int <= u <= 'z' as int) ==> r == u
  {
    if 'a' as int <= u <= 'z' as int then u - 32 else u
  }

  /** The character `String.fromCodePoint(0x1F1E6 + offset)` for the upper-cased unit. */
  function Indicator(u: int): (c: char)
    requires 0 <= u < 0x10000
    ensures c as int == RegionalIndicatorA + UpperUnit(u) - 'A' as int
  {
    (RegionalIndicatorA + UpperUnit(u) - 'A' as int) as char
  }

  /** The error the source raises: reading a code unit that is not there and upper-casing it. */
  const TypeError: string := "TypeError"

  /** `countryCodeToEmoji` without the cache; a code of fewer than two code units throws. */
  function Flag(code: string): (r: Result<string, string>)
    ensures r.Success? <==> |Utf16(code)| >= 2
    ensures r.Failure? ==> r.error == TypeError
    ensures r.Success? ==> |r.value| == 2
  {
    var u := Utf16(code);
    if |u| < 2 then Failure(TypeError) else Success([Indicator(u[0]), Indicator(u[1])])
  }

  /** The source throws exactly for the empty code and for one character below 0x10000. */
  lemma FlagFailsIff(code: string)
    ensures Flag(code).Failure? <==> |code| == 0 || (|code| == 1 && code[0] as int < 0x10000)
  {
    if |code| == 1 {
      assert Utf16(code) == Units(code[0]) + Utf16(code[1..]);
    }
  }

  predicate IsAsciiLetter(c: char) {
    'a' <= c <= 'z' || 'A' <= c <= 'Z'
  }

  /** The upper-case form of an ASCII letter. */
  function UpperLetter(c: char): (r: char)
    requires IsAsciiLetter(c)
    ensures 'A' <= r <= 'Z'
  {
    if 'a' <= c <= 'z' then (c as int - 32) as char else c
  }

  /** Inverse of the regional-indicator shift, back to the letter A-Z it stands for. */
  function LetterOf(c: char): char
    requires RegionalIndicatorA <= c as int <= RegionalIndicatorA + 25
  {
    ('A' as int + (c as int - RegionalIndicatorA)) as char
  }

  lemma Utf16OfTwoAscii(code: string)
    requires |code| >= 2 && code[0] as int < 0x80 && code[1] as int < 0x80
    ensures |Utf16(code)| >= 2 && Utf16(code)[0] == code[0] as int && Utf16(code)[1] == code[1] as int
  {
    assert Utf16(code) == [code[0] as int] + ([code[1] as int] + Utf16(code[2..]));
  }

  /**
    For a code that starts with two ASCII letters of either case, the flag is
    two regional indicators in [0x1F1E6, 0x1F1FF], and they stand for the
    upper-cased letters.
   */
  lemma FlagOfLetters(code: string)
    requires |code| >= 2 && IsAsciiLetter(code[0]) && IsAsciiLetter(code[1])
    ensures Flag(code).Success?
    ensures forall k :: 0 <= k < 2 ==> RegionalIndicatorA <= Flag(code).value[k] as int <= RegionalIndicatorA + 25
    ensures LetterOf(Flag(code).value[0]) == UpperLetter(code[0])
    ensures LetterOf(Flag(code).value[1]) == UpperLetter(code[1])
  {
    Utf16OfTwoAscii(code);
  }

  /** Two codes that start with the same letters up to case get the same flag, and different letters different flags. */
  lemma FlagIgnoresCase(a: string, b: string)
    requires |a| >= 2 && IsAsciiLetter(a[0]) && IsAsciiLetter(a[1])
    requires |b| >= 2 && IsAsciiLetter(b[0]) && IsAsciiLetter(b[1])
    ensures Flag(a) == Flag(b) <==> UpperLetter(a[0]) == UpperLetter(b[0]) && UpperLetter(a[1]) == UpperLetter(b[1])
  {
    FlagOfLetters(a);
    FlagOfLetters(b);
    if UpperLetter(a[0]) == UpperLetter(b[0]) && UpperLetter(a[1]) == UpperLetter(b[1]) {
      assert Flag(a).value == Flag(b).value;
    }
  }

  /** Every cached answer is what a fresh computation gives. */
  predicate CacheSound(cache: map<string, string>) {
    forall code :: code in cache ==> Flag(code) == Success(cache[code])
  }

  /** The answer and the cache after it. */
  datatype Lookup = Lookup(result: Result<string, string>, cache: map<string, string>)

  /**
    `countryCodeToEmoji`: a non-empty cached answer is returned as is;
    otherwise the flag is computed and, unless computing it threw, cached.
   */
  function CountryCodeToEmoji(cache: map<string, string>, code: string): (r: Lookup)
    ensures CacheSound(cache) ==> r.result == Flag(code) && CacheSound(r.cache)
    ensures r.result.Success? ==> code in r.cache && r.cache[code] == r.result.value
    ensures forall k :: k in cache && k != code ==> k in r.cache && r.cache[k] == cache[k]
    ensures r.cache.Keys <= cache.Keys + {code}
  {
    if code in cache && cache[code] != "" then Lookup(Success(cache[code]), cache)
    else
      match Flag(code)
      case Failure(e) => Lookup(Failure(e), cache)
      case Success(f) => Lookup(Success(f), cache[code := f])
  }
}
