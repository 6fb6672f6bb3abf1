/** The string operations the storefront borrows from JavaScript, over ASCII:
    `\s`, `trim`, `toLowerCase`, `includes`, `startsWith`, `parseInt` and the
    decimal text of a price (`parseFloat` / `toFixed(2)` on integer cents). */
module Text {
  import opened Common

  /** JavaScript's `\s`, restricted to ASCII: space, tab, line feed,
      vertical tab, form feed and carriage return. */
  predicate IsSpace(c: char) {
    c == ' ' || c == '\t' || c == '\n' || c == '\U{000B}' || c == '\U{000C}' || c == '\r'
  }

  /** Every character is white space (so `s.trim()` is the falsy ''). */
  predicate Blank(s: string) {
    forall i :: 0 <= i < |s| ==> IsSpace(s[i])
  }

  function TrimStart(s: string): (r: string)
    ensures |r| <= |s| && r == s[|s| - |r|..]
    ensures r != [] ==> !IsSpace(r[0])
    ensures Blank(s[..|s| - |r|])
  {
    if s != [] && IsSpace(s[0]) then TrimStart(s[1..]) else s
  }

  function TrimEnd(s: string): (r: string)
    ensures |r| <= |s| && r == s[..|r|]
    ensures r != [] ==> !IsSpace(r[|r| - 1])
    ensures Blank(s[|r|..])
  {
    if s != [] && IsSpace(s[|s| - 1]) then TrimEnd(s[..|s| - 1]) else s
  }

  /** `s.trim()`: white space removed from both ends. */
  function Trim(s: string): string {
    TrimEnd(TrimStart(s))
  }

  /** `!s.trim()` holds exactly for the strings made only of white space. */
  lemma {:induction false} TrimStartOfBlank(s: string)
    requires Blank(s)
    ensures TrimStart(s) == []
  {
    if s != [] {
      TrimStartOfBlank(s[1..]);
    }
  }

  /** Text that does not start with white space is its own `TrimStart`. */
  lemma TrimStartOfNonSpace(s: string)
    requires s == [] || !IsSpace(s[0])
    ensures TrimStart(s) == s
  {
  }

  /** `!s.trim()` holds exactly for the strings made only of white space. */
  lemma TrimEmptyIffBlank(s: string)
    ensures Trim(s) == [] <==> Blank(s)
  {
    var t := TrimStart(s);
    if Blank(s) {
      TrimStartOfBlank(s);
    }
    if Trim(s) == [] {
      assert Blank(t[0..]);
      assert s == s[..|s| - |t|] + t;
    }
  }

  /** `toLowerCase` on one ASCII character. */
  function LowerChar(c: char): (r: char)
    ensures 'A' <= c <= 'Z' ==> r as int == c as int + 32
    ensures !('A' <= c <= 'Z') ==> r == c
    ensures !('A' <= r <= 'Z')
  {
    if 'A' <= c <= 'Z' then (c as int + 32) as char else c
  }

  /** `toUpperCase` on one ASCII character. */
  function UpperChar(c: char): (r: char)
    ensures 'a' <= c <= 'z' ==> r as int == c as int - 32
    ensures !('a' <= c <= 'z') ==> r == c
    ensures !('a' <= r <= 'z')
  {
    if 'a' <= c <= 'z' then (c as int - 32) as char else c
  }

  /** `s.toLowerCase()` over ASCII. */
  function ToLower(s: string): (r: string)
    ensures |r| == |s|
    ensures forall i :: 0 <= i < |s| ==> r[i] == LowerChar(s[i])
  {
    Map(s, LowerChar)
  }

  lemma ToLowerIdempotent(s: string)
    ensures ToLower(ToLower(s)) == ToLower(s)
  {
  }

  /** `t` occurs in `s` starting at index `i`. */
  predicate OccursAt(s: string, t: string, i: nat) {
    i + |t| <= |s| && s[i..i + |t|] == t
  }

  /** `s.includes(t)`. */
  predicate Contains(s: string, t: string) {
    exists i :: 0 <= i <= |s| - |t| && OccursAt(s, t, i)
  }

  /** Every string includes the empty string. */
  lemma ContainsEmpty(s: string)
    ensures Contains(s, "")
  {
    assert OccursAt(s, "", 0);
  }

  /** `s.startsWith(p)`. */
  predicate StartsWith(s: string, p: string) {
    |p| <= |s| && s[..|p|] == p
  }

  predicate IsDigit(c: char) {
    '0' <= c <= '9'
  }

  predicate AllDigits(s: string) {
    forall i :: 0 <= i < |s| ==> IsDigit(s[i])
  }

  function DigitValue(c: char): (r: nat)
    requires IsDigit(c)
    ensures r < 10
  {
    c as int - '0' as int
  }

  function DigitChar(d: nat): (c: char)
    requires d < 10
    ensures IsDigit(c) && DigitValue(c) == d
  {
    ('0' as int + d) as char
  }

  /** The number a string of decimal digits denotes, read left to right. */
  function DigitsValue(s: string): nat
    requires AllDigits(s)
  {
    if s == [] then 0 else DigitsValue(s[..|s| - 1]) * 10 + DigitValue(s[|s| - 1])
  }

  /** The longest prefix made of decimal digits. */
  function LeadingDigits(s: string): (r: string)
    ensures AllDigits(r) && |r| <= |s| && r == s[..|r|]
    ensures |r| < |s| ==> !IsDigit(s[|r|])
  {
    if s != [] && IsDigit(s[0]) then [s[0]] + LeadingDigits(s[1..]) else []
  }

  /** A digit run followed by a non-digit (or nothing) is read whole. */
  lemma {:induction false} LeadingDigitsOf(d: string, rest: string)
    requires AllDigits(d)
    requires rest == [] || !IsDigit(rest[0])
    ensures LeadingDigits(d + rest) == d
  {
    if d != [] {
      assert (d + rest)[1..] == d[1..] + rest;
      LeadingDigitsOf(d[1..], rest);
    }
  }

  /** The decimal text of a natural number, without leading zeros. */
  function Decimal(n: nat): (r: string)
    ensures AllDigits(r) && r != []
    ensures r[0] == '0' ==> n == 0
  {
    if n < 10 then [DigitChar(n)] else Decimal(n / 10) + [DigitChar(n % 10)]
  }

  lemma {:induction false} DecimalValue(n: nat)
    ensures DigitsValue(Decimal(n)) == n
  {
    if n >= 10 {
      var d := Decimal(n);
      assert d[..|d| - 1] == Decimal(n / 10);
      DecimalValue(n / 10);
    }
  }

  /** The longest run of digits at the start of `body`, read as a number;
      `None` when there is none. */
  function UnsignedInt(body: string): (r: Option<int>)
    ensures r.Some? ==> r.value >= 0
  {
    var digits := LeadingDigits(body);
    if digits == [] then None else Some(DigitsValue(digits) as int)
  }

  /** `parseInt(s)` in base ten: leading white space, an optional sign, then
      the longest run of digits; `None` (NaN) when there is no digit. */
  function ParseInt(s: string): Option<int> {
    var u := TrimStart(s);
    if u != [] && u[0] == '-' then
      (match UnsignedInt(u[1..]) case None => None case Some(m) => Some(-m))
    else if u != [] && u[0] == '+' then UnsignedInt(u[1..])
    else UnsignedInt(u)
  }

  /** A digit string is its own longest digit prefix and is read whole. */
  lemma {:induction false} UnsignedIntOfDigits(d: string)
    requires AllDigits(d) && d != []
    ensures LeadingDigits(d) == d
    ensures UnsignedInt(d) == Some(DigitsValue(d) as int)
  {
    LeadingDigitsOf(d, "");
    assert d + "" == d;
  }

  /** `parseInt` reads a digit string as its value. */
  lemma {:induction false} ParseIntDigits(d: string)
    requires AllDigits(d) && d != []
    ensures ParseInt(d) == Some(DigitsValue(d) as int)
  {
    UnsignedIntOfDigits(d);
    assert IsDigit(d[0]);
    TrimStartOfNonSpace(d);
  }

  /** `parseInt` reads a minus sign and a digit string as the negated value. */
  lemma {:induction false} ParseIntNegated(d: string)
    requires AllDigits(d) && d != []
    ensures ParseInt("-" + d) == Some(-(DigitsValue(d) as int))
  {
    UnsignedIntOfDigits(d);
    var m := "-" + d;
    assert m[0] == '-';
    TrimStartOfNonSpace(m);
    assert m[1..] == d;
  }

  /** Text that does not start with a digit has no number at its start. */
  lemma UnsignedIntOfNonDigit(body: string)
    requires body == [] || !IsDigit(body[0])
    ensures UnsignedInt(body) == None
  {
  }

  /** `parseInt` of text with no digit at all is NaN. */
  lemma {:induction false} ParseIntWithoutDigits(s: string)
    requires forall i :: 0 <= i < |s| ==> !IsDigit(s[i])
    ensures ParseInt(s).None?
  {
    var u := TrimStart(s);
    assert u == s[|s| - |u|..];
    if u != [] {
      assert u[0] == s[|s| - |u|];
      UnsignedIntOfNonDigit(u);
      if |u| > 1 {
        assert u[1..][0] == s[|s| - |u| + 1];
      }
      UnsignedIntOfNonDigit(u[1..]);
    } else {
      UnsignedIntOfNonDigit(u);
    }
  }

  /** `parseInt` reads back the decimal text of every integer. */
  lemma ParseIntDecimal(n: nat)
    ensures ParseInt(Decimal(n)) == Some(n as int)
    ensures ParseInt("-" + Decimal(n)) == Some(-(n as int))
  {
    ParseIntDigits(Decimal(n));
    ParseIntNegated(Decimal(n));
    DecimalValue(n);
  }

  /** The whole cents denoted by the fraction digits of a decimal, truncated
      after the second digit. */
  function FractionCents(f: string): (r: nat)
    requires AllDigits(f)
    ensures r < 100
  {
    (if |f| > 0 then DigitValue(f[0]) * 10 else 0) + (if |f| > 1 then DigitValue(f[1]) else 0)
  }

  /** The fraction digits after the whole digits: the digits following a '.', if any. */
  function FractionDigits(rest: string): (r: string)
    ensures AllDigits(r)
  {
    if rest != [] && rest[0] == '.' then LeadingDigits(rest[1..]) else []
  }

  /** An unsigned decimal in cents: whole digits, then optionally '.' and
      fraction digits. */
  function UnsignedCents(body: string): nat {
    var whole := LeadingDigits(body);
    DigitsValue(whole) * 100 + FractionCents(FractionDigits(body[|whole|..]))
  }

  /** `parseFloat(s)` on a decimal price, in integer cents: leading white
      space, an optional sign, then an unsigned decimal; text with no digit at
      all (NaN) reads as 0. */
  function ParseCents(s: string): int {
    var u := TrimStart(s);
    if u != [] && u[0] == '-' then -(UnsignedCents(u[1..]) as int)
    else if u != [] && u[0] == '+' then UnsignedCents(u[1..])
    else UnsignedCents(u)
  }

  /** `(c / 100).toFixed(2)` for a non-negative amount of cents. */
  function FormatCents(c: nat): (r: string)
    ensures |r| >= 4 && r[|r| - 3] == '.'
    ensures IsDigit(r[|r| - 2]) && IsDigit(r[|r| - 1])
    ensures AllDigits(r[..|r| - 3]) && r[..|r| - 3] != []
  {
    Decimal(c / 100) + "." + [DigitChar(c % 100 / 10), DigitChar(c % 10)]
  }

  /** Text starting with a digit is read without sign or white space. */
  lemma {:induction false} ParseCentsOfDigitStart(s: string)
    requires s != [] && IsDigit(s[0])
    ensures ParseCents(s) == UnsignedCents(s)
  {
    TrimStartOfNonSpace(s);
    assert s[0] != '-' && s[0] != '+';
  }

  /** The whole digits end at the first non-digit. */
  lemma {:induction false} UnsignedCentsOf(d: string, rest: string)
    requires AllDigits(d)
    requires rest == [] || !IsDigit(rest[0])
    ensures UnsignedCents(d + rest) == DigitsValue(d) * 100 + FractionCents(FractionDigits(rest))
  {
    LeadingDigitsOf(d, rest);
    assert (d + rest)[|d|..] == rest;
  }

  /** A run of digits, a '.', then two digits reads as that many cents. */
  lemma {:induction false} ParseCentsOfParts(d: string, f: string)
    requires AllDigits(d) && d != [] && AllDigits(f) && |f| == 2
    ensures ParseCents(d + "." + f) == DigitsValue(d) * 100 + DigitValue(f[0]) * 10 + DigitValue(f[1])
  {
    var s := d + ("." + f);
    assert d + "." + f == s;
    ParseCentsOfDigitStart(s);
    UnsignedCentsOf(d, "." + f);
    LeadingDigitsOf(f, "");
    assert f + "" == f;
    assert ("." + f)[1..] == f;
  }

  /** Cents split into whole units, tens and ones. */
  lemma CentsDigits(c: nat)
    ensures c == c / 100 * 100 + c % 100 / 10 * 10 + c % 10
  {
  }

  /** Reading back a price printed with two decimals gives the same cents. */
  lemma ParseCentsFormat(c: nat)
    ensures ParseCents(FormatCents(c)) == c
  {
    var d := Decimal(c / 100);
    var f := [DigitChar(c % 100 / 10), DigitChar(c % 10)];
    assert FormatCents(c) == d + "." + f;
    ParseCentsOfParts(d, f);
    DecimalValue(c / 100);
    CentsDigits(c);
  }
}
