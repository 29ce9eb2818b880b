// ASCII decimal numerals: reading them (`u64::from_str`, chrono's numeric
// fields) and writing them (`{}` and `{:02}` formatting).
module Decimal {
  import opened Wrappers

  /** One past the largest `u64`. */
  const U64Limit: nat := 0x1_0000_0000_0000_0000

  predicate IsDigit(c: char) { '0' <= c <= '9' }

  predicate AllDigits(s: string) {
    forall i :: 0 <= i < |s| ==> IsDigit(s[i])
  }

  function DigitValue(c: char): (d: nat)
    requires IsDigit(c)
    ensures d < 10
  {
    c as int - '0' as int
  }

  function DigitChar(d: nat): (c: char)
    requires d < 10
    ensures IsDigit(c) && DigitValue(c) == d
  {
    ('0' as int + d) as char
  }

  /** A numeral holds no character but digits. */
  lemma DigitsWithout(s: string, c: char)
    requires AllDigits(s) && !IsDigit(c)
    ensures c !in s
  {
    forall i | 0 <= i < |s|
      ensures s[i] != c
    {
      assert IsDigit(s[i]);
    }
  }

  /** The value of a string of decimal digits, most significant first. */
  function DigitsValue(s: string): nat
    requires AllDigits(s)
    decreases |s|
  {
    if s == [] then 0 else DigitsValue(s[..|s| - 1]) * 10 + DigitValue(s[|s| - 1])
  }

  /** The shortest decimal numeral of `n` (Rust's `{}` on an unsigned integer). */
  function NatToString(n: nat): (r: string)
    ensures r != [] && AllDigits(r)
    ensures n < 10 <==> |r| == 1
    ensures n < 100 ==> |r| <= 2
    decreases n
  {
    if n < 10 then [DigitChar(n)] else NatToString(n / 10) + [DigitChar(n % 10)]
  }

  /** Rust's `{:02}` for a value below 100. */
  function Pad2(n: nat): (r: string)
    requires n < 100
    ensures |r| == 2 && AllDigits(r) && DigitsValue(r) == n
  {
    var r := [DigitChar(n / 10), DigitChar(n % 10)];
    assert [r[0]][..0] == [];
    assert DigitsValue([r[0]]) == n / 10;
    assert r[..1] == [r[0]];
    r
  }

  /** A zero-padded three-digit numeral for a value below 1000. */
  function Pad3(n: nat): (r: string)
    requires n < 1000
    ensures |r| == 3 && AllDigits(r) && DigitsValue(r) == n
  {
    var p := Pad2(n % 100);
    var r := [DigitChar(n / 100)] + p;
    assert [r[0]][..0] == [];
    assert DigitsValue([r[0]]) == n / 100;
    assert [r[0], r[1]][..1] == [r[0]];
    assert DigitsValue([r[0], r[1]]) == (n / 100) * 10 + DigitValue(p[0]);
    assert r[..2] == [r[0], r[1]];
    assert p[..1] == [p[0]] && [p[0]][..0] == [];
    assert DigitsValue(p) == DigitValue(p[0]) * 10 + DigitValue(p[1]);
    r
  }

  lemma DigitsValueSnoc(s: string, c: char)
    requires AllDigits(s) && IsDigit(c)
    ensures AllDigits(s + [c]) && DigitsValue(s + [c]) == DigitsValue(s) * 10 + DigitValue(c)
  {
    assert (s + [c])[..|s|] == s;
  }

  /** Reading back the numeral `NatToString` writes gives the number. */
  lemma {:induction false} NatToStringValue(n: nat)
    ensures DigitsValue(NatToString(n)) == n
    decreases n
  {
    if n >= 10 {
      NatToStringValue(n / 10);
      DigitsValueSnoc(NatToString(n / 10), DigitChar(n % 10));
    }
  }

  /** `str::parse::<u64>`: an optional `+`, then at least one ASCII digit, no other
      character, and a value that fits in 64 bits. */
  function ParseU64(s: string): (r: Option<nat>)
    ensures r.Some? ==> r.value < U64Limit
  {
    var digits := if |s| > 0 && s[0] == '+' then s[1..] else s;
    if digits == [] || !AllDigits(digits) then None
    else
      var v := DigitsValue(digits);
      if v < U64Limit then Some(v) else None
  }

  /** Every `u64` printed with `{}` parses back to itself, with or without a leading `+`. */
  lemma ParseU64RoundTrip(n: nat)
    requires n < U64Limit
    ensures ParseU64(NatToString(n)) == Some(n)
    ensures ParseU64("+" + NatToString(n)) == Some(n)
  {
    NatToStringValue(n);
    assert ("+" + NatToString(n))[1..] == NatToString(n);
  }

  /** A string holding a non-digit other than a leading `+` is not a `u64`. */
  lemma ParseU64RejectsNonDigit(s: string, i: nat)
    requires i < |s| && !IsDigit(s[i]) && !(i == 0 && s[i] == '+')
    ensures ParseU64(s) == None
  {
    if |s| > 0 && s[0] == '+' {
      assert s[1..][i - 1] == s[i];
    }
  }

  /** The number of leading ASCII digits of `s`, at most `max`. */
  function LeadingDigits(s: string, max: nat): (n: nat)
    ensures n <= max && n <= |s| && AllDigits(s[..n])
    ensures n == max || n == |s| || !IsDigit(s[n])
    decreases max
  {
    if max == 0 || s == [] || !IsDigit(s[0]) then 0
    else
      var n := 1 + LeadingDigits(s[1..], max - 1);
      assert s[..n] == [s[0]] + s[1..][..n - 1];
      n
  }

  lemma LeadingDigitsOf(d: string, rest: string, max: nat)
    requires AllDigits(d) && |d| <= max
    requires |d| == max || rest == [] || !IsDigit(rest[0])
    ensures LeadingDigits(d + rest, max) == |d|
    decreases |d|
  {
    if d != [] {
      assert (d + rest)[1..] == d[1..] + rest;
      LeadingDigitsOf(d[1..], rest, max - 1);
    }
  }

  /** `s` with every leading ASCII digit removed. */
  function SkipDigits(s: string): (r: string)
    ensures |r| <= |s| && r == s[|s| - |r|..]
    ensures r == [] || !IsDigit(r[0])
    decreases |s|
  {
    if s != [] && IsDigit(s[0]) then SkipDigits(s[1..]) else s
  }
}
