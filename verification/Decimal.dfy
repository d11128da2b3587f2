/** Decimal numerals. */
module Decimal {

  predicate IsDigit(c: char) {
    '0' <= c <= '9'
  }

  predicate AllDigits(s: string) {
    forall i | 0 <= i < |s| :: IsDigit(s[i])
  }

  /** The canonical numeral, without leading zeros. */
  function Show(n: nat): (s: string)
    ensures s != []
  {
    (if n < 10 then [] else Show(n / 10)) + [('0' as int + n % 10) as char]
  }

  /** `Number` on a string of digits. */
  function Read(s: string): nat
    requires AllDigits(s)
  {
    if s == [] then 0 else 10 * Read(s[..|s| - 1]) + (s[|s| - 1] as int - '0' as int)
  }

  predicate NoLeadingZero(s: string) {
    |s| > 1 ==> s[0] != '0'
  }

  lemma {:induction false} ReadShow(n: nat)
    ensures AllDigits(Show(n)) && NoLeadingZero(Show(n)) && Read(Show(n)) == n
    ensures n > 0 ==> Show(n)[0] != '0'
  {
    if n >= 10 {
      ReadShow(n / 10);
      assert Show(n)[..|Show(n)| - 1] == Show(n / 10);
    }
  }

  lemma {:induction false} ShowRead(s: string)
    requires s != [] && AllDigits(s) && NoLeadingZero(s)
    ensures Show(Read(s)) == s && (s[0] != '0' ==> Read(s) > 0)
    decreases |s|
  {
    var front, last := s[..|s| - 1], s[|s| - 1] as int - '0' as int;
    if |s| > 1 {
      ShowRead(front);
      assert Read(s) == 10 * Read(front) + last && Read(s) / 10 == Read(front) && Read(s) % 10 == last;
    } else {
      assert s == [s[0]] && Read(s) == last;
    }
  }

  function Pow10(k: nat): nat {
    if k == 0 then 1 else 10 * Pow10(k - 1)
  }

  lemma {:induction false} ShowLength(n: nat, k: nat)
    requires n < Pow10(k) && k > 0
    ensures |Show(n)| <= k
    decreases k
  {
    if n >= 10 { ShowLength(n / 10, k - 1); }
  }
}
