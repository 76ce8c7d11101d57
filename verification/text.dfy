/** Digits, decimal numbers and prefixes of strings; a character stands for one byte. */
module Text {
  import opened Wrappers

  predicate IsDigit(c: char) {
    '0' <= c <= '9'
  }

  predicate AllDigits(s: string) {
    forall i :: 0 <= i < |s| ==> IsDigit(s[i])
  }

  function ValueOf(c: char): int {
    c as int - '0' as int
  }

  function DigitOf(n: int): (c: char)
    requires 0 <= n <= 9
    ensures IsDigit(c) && ValueOf(c) == n
  {
    '0' + n as char
  }

  function Decimal(s: string): int {
    if s == "" then 0 else 10 * Decimal(s[..|s| - 1]) + ValueOf(s[|s| - 1])
  }

  function PrintNat(n: nat): (s: string)
    ensures s != "" && AllDigits(s) && Decimal(s) == n
  {
    if n < 10 then
      assert [DigitOf(n)][..0] == "";
      [DigitOf(n)]
    else
      var init := PrintNat(n / 10);
      var s := init + [DigitOf(n % 10)];
      assert s[..|s| - 1] == init;
      s
  }

  predicate StartsWith(s: string, prefix: string) {
    |prefix| <= |s| && s[..|prefix|] == prefix
  }

  predicate EndsWith(s: string, suffix: string) {
    |suffix| <= |s| && s[|s| - |suffix|..] == suffix
  }

  const U64_LIMIT := 0x1_0000_0000_0000_0000

  /** Rust's `str::parse::<u64>`: digits after an optional plus sign, below 2^64. */
  function ParseU64(s: string): Option<nat> {
    var digits := if s != "" && s[0] == '+' then s[1..] else s;
    if digits != "" && AllDigits(digits) && 0 <= Decimal(digits) < U64_LIMIT then Some(Decimal(digits)) else None
  }

  lemma ParsePrinted(n: nat)
    requires n < U64_LIMIT
    ensures ParseU64(PrintNat(n)) == Some(n)
  {
    assert IsDigit(PrintNat(n)[0]);
  }
}
