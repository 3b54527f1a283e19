/** Decimal numerals, as printed by the standard formatters and read back. */
module Decimal {
  import opened Seqs

  predicate IsDigit(c: char) { '0' <= c <= '9' }

  function DigitOf(n: nat): char
    requires n < 10
  {
    '0' + n as char
  }

  function ValueOf(c: char): (n: nat)
    requires IsDigit(c)
    ensures n < 10
  {
    (c - '0') as nat
  }

  function Print(n: nat): (s: string)
    ensures s != "" && forall c <- s :: IsDigit(c)
    ensures n > 0 ==> s[0] != '0'
    ensures n == 0 ==> s == "0"
  {
    if n < 10 then [DigitOf(n)] else Print(n / 10) + [DigitOf(n % 10)]
  }

  /** The number a non-empty string of digits stands for. */
  function Parse(s: string): Option<nat> {
    if s == "" || exists c <- s :: !IsDigit(c) then None else Some(Horner(s))
  }

  function Horner(s: string): nat
    requires forall c <- s :: IsDigit(c)
  {
    if s == "" then 0 else 10 * Horner(s[..|s| - 1]) + ValueOf(s[|s| - 1])
  }

  lemma {:induction false} ParsePrint(n: nat)
    ensures Parse(Print(n)) == Some(n)
  {
    if n < 10 {
      assert Print(n)[..0] == "";
      assert Horner(Print(n)) == n;
    } else {
      ParsePrint(n / 10);
      assert Print(n)[..|Print(n)| - 1] == Print(n / 10);
    }
  }
}
