/** Numbers in decimal digits. */
module Decimals {

  function Digits(n: nat): (s: string)
    ensures s != "" && forall c :: c in s ==> '0' <= c <= '9'
  {
    if n < 10 then [('0' as int + n) as char] else Digits(n / 10) + [('0' as int + n % 10) as char]
  }

  /** What digits say. */
  function Value(s: string): int {
    if s == "" then 0 else 10 * Value(s[..|s| - 1]) + (s[|s| - 1] as int - '0' as int)
  }

  /** The digits of a number say it, and no zero is in front of them. */
  lemma {:induction false} DigitsSay(n: nat)
    ensures Value(Digits(n)) == n && (n > 0 ==> Digits(n)[0] != '0') && Digits(0) == "0"
    decreases n
  {
    if n < 10 {
      assert Digits(n) == [('0' as int + n) as char] && Digits(n)[..0] == "";
      assert Value(Digits(n)[..0]) == 0;
    } else {
      DigitsSay(n / 10);
      var last := [('0' as int + n % 10) as char];
      assert Digits(n) == Digits(n / 10) + last && Digits(n)[..|Digits(n)| - 1] == Digits(n / 10);
      assert Digits(n)[0] == Digits(n / 10)[0];
    }
  }
}
