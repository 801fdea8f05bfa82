/** Numbers in decimal, as "%d" and str() print them. */
module Decimal {

  function Digit(d: nat): char
    requires d < 10
  {
    ('0' as int + d) as char
  }

  /** The decimal notation of a number. */
  function Str(n: nat): (s: string)
    ensures s != [] && forall i | 0 <= i < |s| :: '0' <= s[i] <= '9'
  {
    if n < 10 then [Digit(n)] else Str(n / 10) + [Digit(n % 10)]
  }

  /** Different numbers look different. */
  lemma {:induction false} StrInjective(m: nat, n: nat)
    requires Str(m) == Str(n)
    ensures m == n
    decreases m
  {
    var s := Str(m);
    assert s[|s| - 1] == Digit(m % 10) && s[|s| - 1] == Digit(n % 10);
    if m < 10 {
      assert |s| == 1;
      assert n < 10;
    } else {
      assert n >= 10;
      assert Str(m / 10) == s[..|s| - 1] == Str(n / 10);
      StrInjective(m / 10, n / 10);
    }
  }

  /** A non-negative 32-bit int takes at most ten digits. */
  lemma {:induction false} StrLength(n: nat, k: nat)
    requires 1 <= k && n < Pow10(k)
    ensures |Str(n)| <= k
    decreases k
  {
    if n >= 10 {
      assert k >= 2;
      assert n / 10 < Pow10(k - 1);
      StrLength(n / 10, k - 1);
    }
  }

  function Pow10(k: nat): nat { if k == 0 then 1 else 10 * Pow10(k - 1) }

  /** The number that a string of digits stands for. */
  function Value(s: string): int {
    if s == "" then 0 else 10 * Value(s[..|s| - 1]) + (s[|s| - 1] as int - '0' as int)
  }

  /** Reading a number back gives the number, and it is written without leading zeros. */
  lemma {:induction false} ValueOfStr(n: nat)
    ensures Value(Str(n)) == n
    ensures n > 0 ==> Str(n)[0] != '0'
  {
    if n < 10 {
      assert Str(n)[..0] == "";
    } else {
      ValueOfStr(n / 10);
      assert Str(n)[..|Str(n)| - 1] == Str(n / 10);
    }
  }
}
