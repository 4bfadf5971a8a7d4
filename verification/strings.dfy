/** String helpers shared by the model: prefix and suffix tests, first-occurrence search and
    replacement, left padding, and decimal rendering of numbers. */
module Strings {
  import opened Wrappers

  predicate IsDigit(c: char) {
    '0' <= c <= '9'
  }

  predicate AllDigits(s: string) {
    forall i :: 0 <= i < |s| ==> IsDigit(s[i])
  }

  /** `s.startsWith(prefix)` */
  predicate StartsWith(s: string, prefix: string) {
    |prefix| <= |s| && s[..|prefix|] == prefix
  }

  /** `s.endsWith(suffix)` */
  predicate EndsWith(s: string, suffix: string) {
    |suffix| <= |s| && s[|s| - |suffix|..] == suffix
  }

  /** `pattern` occurs in `s` starting at index `i`. */
  predicate OccursAt(s: string, pattern: string, i: nat) {
    i + |pattern| <= |s| && s[i..i + |pattern|] == pattern
  }

  /** The first index at or after `from` where `pattern` occurs, as `String.prototype.indexOf`. */
  function IndexOf(s: string, pattern: string, from: nat): (r: Option<nat>)
    requires from <= |s|
    ensures r.Some? ==> from <= r.value && OccursAt(s, pattern, r.value)
    ensures forall j: nat :: from <= j && (r.None? || j < r.value) ==> !OccursAt(s, pattern, j)
    decreases |s| - from
  {
    if OccursAt(s, pattern, from) then Some(from)
    else if from == |s| then None
    else IndexOf(s, pattern, from + 1)
  }

  /** `s.replace(pattern, replacement)` with a string pattern: only the first occurrence is replaced. */
  function ReplaceFirst(s: string, pattern: string, replacement: string): (r: string)
    ensures (forall i: nat :: !OccursAt(s, pattern, i)) ==> r == s
    ensures forall i: nat ::
              OccursAt(s, pattern, i) && (forall j: nat :: j < i ==> !OccursAt(s, pattern, j)) ==>
                r == s[..i] + replacement + s[i + |pattern|..]
  {
    match IndexOf(s, pattern, 0)
    case None => s
    case Some(i) => s[..i] + replacement + s[i + |pattern|..]
  }

  /** Replacing brings in no character that neither the string nor the replacement holds. */
  lemma ReplaceFirstKeepsOut(s: string, pattern: string, replacement: string, c: char)
    requires c !in s && c !in replacement
    ensures c !in ReplaceFirst(s, pattern, replacement)
  {
    match IndexOf(s, pattern, 0)
    case None =>
    case Some(i) =>
      assert s == s[..i] + s[i..];
      assert s[i..] == s[i..i + |pattern|] + s[i + |pattern|..];
  }

  /** Replacing the first occurrence with nothing cuts it out. */
  lemma ReplaceWithNothing(name: string, p: string)
    ensures forall i: nat :: OccursAt(name, p, i) && (forall j: nat :: j < i ==> !OccursAt(name, p, j)) ==>
              ReplaceFirst(name, p, "") == name[..i] + name[i + |p|..]
  {
    forall i: nat | OccursAt(name, p, i) && (forall j: nat :: j < i ==> !OccursAt(name, p, j))
      ensures ReplaceFirst(name, p, "") == name[..i] + name[i + |p|..]
    {
      assert name[..i] + "" == name[..i];
    }
  }

  /** `count` copies of `c`. */
  function Repeat(c: char, count: nat): (r: string)
    ensures |r| == count
    ensures forall i :: 0 <= i < count ==> r[i] == c
  {
    if count == 0 then "" else [c] + Repeat(c, count - 1)
  }

  /** `s.padStart(width, fill)` for a one-character `fill`. */
  function PadStart(s: string, width: nat, fill: char): (r: string)
    ensures |r| == if |s| < width then width else |s|
    ensures EndsWith(r, s)
    ensures forall i :: 0 <= i < |r| - |s| ==> r[i] == fill
  {
    if |s| < width then Repeat(fill, width - |s|) + s else s
  }

  function DigitChar(d: nat): (c: char)
    requires d < 10
    ensures IsDigit(c) && DigitValue(c) == d
  {
    ('0' as int + d) as char
  }

  function DigitValue(c: char): nat
    requires IsDigit(c)
  {
    c as int - '0' as int
  }

  /** The value of a string of decimal digits, read most significant digit first. */
  function ParseDecimal(s: string): nat
    requires AllDigits(s)
  {
    if |s| == 0 then 0 else ParseDecimal(s[..|s| - 1]) * 10 + DigitValue(s[|s| - 1])
  }

  /** `String(n)` for a non-negative integer: its decimal digits without leading zeros. */
  function Decimal(n: nat): (r: string)
    ensures 1 <= |r| && AllDigits(r)
    ensures ParseDecimal(r) == n
    ensures |r| > 1 ==> r[0] != '0'
    decreases n
  {
    if n < 10 then
      [DigitChar(n)]
    else
      var r := Decimal(n / 10) + [DigitChar(n % 10)];
      assert r[..|r| - 1] == Decimal(n / 10);
      r
  }

  /** A digit string with a non-zero first digit reads as a positive number. */
  lemma {:induction false} LeadingDigitPositive(s: string)
    requires 1 <= |s| && AllDigits(s) && s[0] != '0'
    ensures ParseDecimal(s) >= 1
    decreases |s|
  {
    if |s| > 1 {
      LeadingDigitPositive(s[..|s| - 1]);
    }
  }

  /** `Decimal` is the only rendering without leading zeros: every non-empty digit string whose
      first digit is not a zero, unless it is the only one, is the `Decimal` of its value. */
  lemma {:induction false} DecimalCanonical(s: string)
    requires 1 <= |s| && AllDigits(s) && (|s| > 1 ==> s[0] != '0')
    ensures s == Decimal(ParseDecimal(s))
    decreases |s|
  {
    var n := ParseDecimal(s);
    if |s| > 1 {
      var prefix := s[..|s| - 1];
      LeadingDigitPositive(prefix);
      DecimalCanonical(prefix);
      assert n / 10 == ParseDecimal(prefix) && n % 10 == DigitValue(s[|s| - 1]);
      assert s == prefix + [s[|s| - 1]];
    }
  }

  function Pow10(k: nat): nat {
    if k == 0 then 1 else 10 * Pow10(k - 1)
  }

  /** A number with exactly `k` decimal digits renders as `k` characters. */
  lemma {:induction false} DecimalLength(n: nat, k: nat)
    requires 1 <= k
    requires (k == 1 || Pow10(k - 1) <= n) && n < Pow10(k)
    ensures |Decimal(n)| == k
    decreases k
  {
    if k > 1 {
      if k - 1 > 1 {
        assert Pow10(k - 2) <= n / 10;
      }
      DecimalLength(n / 10, k - 1);
    }
  }

  /** `String(n)` for any integer: a minus sign before the digits of a negative number. */
  function IntToString(n: int): (r: string)
    // a non-negative number: its canonical digits, which read back as it
    ensures n >= 0 ==> r == Decimal(n) && AllDigits(r) && ParseDecimal(r) == n
    // a negative one: a minus sign, then the canonical digits of its magnitude
    ensures n < 0 ==> |r| >= 2 && r[0] == '-' && r[1..] == Decimal(-n) && ParseDecimal(r[1..]) == -n
  {
    if n < 0 then "-" + Decimal(-n) else Decimal(n)
  }
}
