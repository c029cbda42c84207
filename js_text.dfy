/** Text and number conversions of the JavaScript runtime that the pages and
    controllers rely on: decimal rendering of numbers, `parseInt`, `Number`,
    `String.prototype.split` on one character, ASCII `toLowerCase`, `includes`
    on two-character needles and `padStart(2, '0')`. */
module JsText {

  /** A JavaScript number as the code uses it: an integer or NaN. */
  datatype JsNumber = Num(value: int) | NaN

  predicate IsDigit(c: char) {
    '0' <= c <= '9'
  }

  predicate AllDigits(s: string) {
    forall i :: 0 <= i < |s| ==> IsDigit(s[i])
  }

  function DigitChar(d: nat): (c: char)
    requires d < 10
    ensures IsDigit(c)
  {
    (('0' as int) + d) as char
  }

  function DigitValue(c: char): (d: nat)
    requires IsDigit(c)
    ensures d < 10 && DigitChar(d) == c
  {
    (c as int) - ('0' as int)
  }

  /** Decimal rendering of a non-negative integer, without padding (`${n}`). */
  function NatToString(n: nat): (s: string)
    ensures |s| > 0 && AllDigits(s)
    ensures n < 10 <==> |s| == 1
  {
    if n < 10 then [DigitChar(n)] else NatToString(n / 10) + [DigitChar(n % 10)]
  }

  /** Numbers below a hundred take at most two digits. */
  lemma ShortNumeral(n: nat)
    requires n < 100
    ensures |NatToString(n)| <= 2
  {
    if n >= 10 {
      assert |NatToString(n / 10)| == 1;
    }
  }

  /** Decimal rendering of any integer (`${i}`): a minus sign before negatives. */
  function IntToString(i: int): (s: string)
    ensures |s| > 0
    ensures i >= 0 ==> s == NatToString(i)
  {
    if i < 0 then "-" + NatToString(-i) else NatToString(i)
  }

  /** Template-literal rendering of a number, NaN included. */
  function NumberToString(x: JsNumber): string {
    match x
    case Num(i) => IntToString(i)
    case NaN => "NaN"
  }

  /** A string of digits holds no other character. */
  lemma DigitsExclude(s: string, c: char)
    requires AllDigits(s) && !IsDigit(c)
    ensures c !in s
  {
    forall i | 0 <= i < |s| ensures s[i] != c { assert IsDigit(s[i]); }
  }

  /** The value of a string of decimal digits (most significant first). */
  function DigitsValue(s: string): nat
    requires AllDigits(s)
  {
    if s == [] then 0 else DigitsValue(s[..|s| - 1]) * 10 + DigitValue(s[|s| - 1])
  }

  /** Reading back a rendered number gives the number: the decimal rendering
      and the decimal reading are inverse. */
  lemma {:induction false} DigitsValueOfNatToString(n: nat)
    ensures DigitsValue(NatToString(n)) == n
  {
    var s := NatToString(n);
    if n >= 10 {
      DigitsValueOfNatToString(n / 10);
      assert s[..|s| - 1] == NatToString(n / 10);
    }
  }

  /** Distinct numbers render as distinct strings. */
  lemma NatToStringInjective(m: nat, n: nat)
    requires NatToString(m) == NatToString(n)
    ensures m == n
  {
    DigitsValueOfNatToString(m);
    DigitsValueOfNatToString(n);
  }

  /** The longest prefix of `s` made of decimal digits. */
  function DigitPrefix(s: string): (p: string)
    ensures AllDigits(p) && p <= s
    ensures |p| < |s| ==> !IsDigit(s[|p|])
  {
    if s == [] || !IsDigit(s[0]) then [] else [s[0]] + DigitPrefix(s[1..])
  }

  lemma {:induction false} DigitPrefixOfDigits(s: string)
    requires AllDigits(s)
    ensures DigitPrefix(s) == s
  {
    if s != [] {
      DigitPrefixOfDigits(s[1..]);
    }
  }

  /** `parseInt(s)` with no radix, for strings without leading white space:
      an optional sign, then the leading decimal digits; NaN when there are none. */
  function ParseInt(s: string): (r: JsNumber)
    ensures r.NaN? <==> DigitPrefix(if |s| > 0 && (s[0] == '-' || s[0] == '+') then s[1..] else s) == []
  {
    var negative := |s| > 0 && s[0] == '-';
    var body := if |s| > 0 && (s[0] == '-' || s[0] == '+') then s[1..] else s;
    var digits := DigitPrefix(body);
    if digits == [] then NaN
    else if negative then Num(0 - DigitsValue(digits))
    else Num(DigitsValue(digits))
  }

  /** `parseInt` reads a rendered natural number back unchanged. */
  lemma ParseIntOfDigits(s: string)
    requires |s| > 0 && AllDigits(s)
    ensures ParseInt(s) == Num(DigitsValue(s))
  {
    DigitPrefixOfDigits(s);
  }

  /** A sign followed by at least one decimal digit. */
  predicate SignedDigits(s: string) {
    |s| >= 2 && (s[0] == '+' || s[0] == '-') && AllDigits(s[1..])
  }

  /** `Number(s)` on decimal numerals: a string of decimal digits (the empty
      string reads as 0), or a sign and at least one digit; any other string
      is NaN. */
  function ToNumber(s: string): (r: JsNumber)
    ensures r.Num? <==> AllDigits(s) || SignedDigits(s)
    ensures r.Num? && r.value < 0 ==> |s| > 0 && s[0] == '-'
  {
    if AllDigits(s) then Num(DigitsValue(s))
    else if SignedDigits(s) then
      (if s[0] == '-' then Num(-(DigitsValue(s[1..]) as int)) else Num(DigitsValue(s[1..])))
    else NaN
  }

  /** `Number` reads a rendered natural number back, with or without a sign. */
  lemma ToNumberReadsBack(n: nat)
    ensures ToNumber(NatToString(n)) == Num(n)
    ensures ToNumber("+" + NatToString(n)) == Num(n)
    ensures ToNumber("-" + NatToString(n)) == Num(-(n as int))
  {
    DigitsValueOfNatToString(n);
    var d := NatToString(n);
    assert ("+" + d)[1..] == d && !IsDigit(("+" + d)[0]);
    assert ("-" + d)[1..] == d && !IsDigit(("-" + d)[0]);
  }

  /** The length of a string in UTF-16 code units, as `.length` counts it: a
      character outside the Basic Multilingual Plane takes two units. */
  function Utf16Length(s: string): (n: nat)
    ensures |s| <= n <= 2 * |s|
  {
    if s == [] then 0 else (if s[0] as int >= 0x1_0000 then 2 else 1) + Utf16Length(s[1..])
  }

  /** Text made of characters of the Basic Multilingual Plane is as long in
      code units as in characters. */
  lemma {:induction false} Utf16LengthOfPlaneZero(s: string)
    requires forall i :: 0 <= i < |s| ==> s[i] as int < 0x1_0000
    ensures Utf16Length(s) == |s|
  {
    if s != [] {
      Utf16LengthOfPlaneZero(s[1..]);
    }
  }

  /** Four emoji count as eight code units. */
  lemma FourEmojiAreEight()
    ensures Utf16Length("\U{1F600}\U{1F600}\U{1F600}\U{1F600}") == 8
  {
  }

  /** `s.split(c)`: the pieces between the occurrences of `c`. */
  function Split(s: string, c: char): (parts: seq<string>)
    ensures |parts| >= 1
  {
    if s == [] then [""]
    else
      var rest := Split(s[1..], c);
      if s[0] == c then [""] + rest else [[s[0]] + rest[0]] + rest[1..]
  }

  /** A string without the separator is a single piece. */
  lemma {:induction false} SplitWithout(a: string, c: char)
    requires c !in a
    ensures Split(a, c) == [a]
  {
    if a != [] {
      SplitWithout(a[1..], c);
      assert a[0] != c && [a[0]] + a[1..] == a;
    }
  }

  /** Splitting at the first separator: the piece before it, then the pieces of
      the remainder. */
  lemma {:induction false} SplitAt(a: string, c: char, b: string)
    requires c !in a
    ensures Split(a + [c] + b, c) == [a] + Split(b, c)
  {
    if a == [] {
      assert a + [c] + b == [c] + b;
      assert ([c] + b)[1..] == b;
    } else {
      SplitAt(a[1..], c, b);
      assert (a + [c] + b)[1..] == a[1..] + [c] + b;
      assert (a + [c] + b)[0] == a[0] != c;
      assert [a[0]] + a[1..] == a;
    }
  }

  /** `toLowerCase` of one character, on the capitals A to Z only. */
  function LowerChar(c: char): (l: char)
    ensures 'A' <= c <= 'Z' ==> l as int == c as int + 32
    ensures !('A' <= c <= 'Z') ==> l == c
  {
    if 'A' <= c <= 'Z' then (c as int + 32) as char else c
  }

  /** `s.toLowerCase()` on ASCII letters, character by character. */
  function Lower(s: string): (l: string)
    ensures |l| == |s|
  {
    if s == [] then [] else [LowerChar(s[0])] + Lower(s[1..])
  }

  lemma {:induction false} LowerAt(s: string, i: int)
    requires 0 <= i < |s|
    ensures Lower(s)[i] == LowerChar(s[i])
  {
    if i > 0 {
      LowerAt(s[1..], i - 1);
    }
  }

  /** A string without capitals is its own lower case. */
  lemma {:induction false} LowerOfNoCapitals(s: string)
    requires forall i :: 0 <= i < |s| ==> !('A' <= s[i] <= 'Z')
    ensures Lower(s) == s
  {
    if s != [] {
      LowerOfNoCapitals(s[1..]);
      assert [s[0]] + s[1..] == s;
    }
  }

  /** `s.includes(xy)` for a two-character needle. */
  predicate ContainsPair(s: string, x: char, y: char) {
    |s| >= 2 && ((s[0] == x && s[1] == y) || ContainsPair(s[1..], x, y))
  }

  /** The needle found at position `i`. */
  lemma {:induction false} ContainsPairAt(s: string, i: int, x: char, y: char)
    requires 0 <= i < |s| - 1 && s[i] == x && s[i + 1] == y
    ensures ContainsPair(s, x, y)
  {
    if i > 0 {
      ContainsPairAt(s[1..], i - 1, x, y);
    }
  }

  /** Without its first character the needle is nowhere. */
  lemma {:induction false} NoPairWithout(s: string, x: char, y: char)
    requires x !in s
    ensures !ContainsPair(s, x, y)
  {
    if |s| >= 2 {
      assert s[0] != x;
      assert x !in s[1..] by {
        forall j | 0 <= j < |s[1..]| ensures s[1..][j] != x { assert s[1..][j] == s[j + 1]; }
      }
      NoPairWithout(s[1..], x, y);
    }
  }

  /** `String(n).padStart(2, '0')` for a non-negative integer. */
  function Pad2(n: nat): (s: string)
    ensures AllDigits(s) && |s| >= 2
    ensures n < 100 ==> |s| == 2 && DigitsValue(s) == n
  {
    var d := NatToString(n);
    DigitsValueOfNatToString(n);
    if |d| < 2 then
      assert (['0'] + d)[..1] == ['0'];
      ['0'] + d
    else
      d
  }
}
