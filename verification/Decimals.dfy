/** Decimal numerals: printing a number and reading a string of digits. */
module Decimals {

  predicate IsDigit(c: char) {
    '0' <= c <= '9'
  }

  predicate IsDigits(s: string) {
    forall i :: 0 <= i < |s| ==> IsDigit(s[i])
  }

  function DigitOf(n: nat): char
    requires n < 10
  {
    '0' + n as char
  }

  function Print(n: nat): (s: string)
    ensures |s| >= 1 && IsDigits(s)
  {
    if n < 10 then [DigitOf(n)] else Print(n / 10) + [DigitOf(n % 10)]
  }

  function Read(s: string): nat
    requires IsDigits(s)
  {
    if s == "" then 0 else Read(s[..|s| - 1]) * 10 + (s[|s| - 1] - '0') as nat
  }

  /** No leading zero, except in "0" itself. */
  predicate Canonical(s: string) {
    s != "" && (s[0] != '0' || |s| == 1)
  }

  lemma {:induction false} ReadPrint(n: nat)
    ensures Read(Print(n)) == n
  {
    if n >= 10 {
      ReadPrint(n / 10);
      assert Print(n)[..|Print(n)| - 1] == Print(n / 10);
    }
  }

  lemma {:induction false} PrintIsCanonical(n: nat)
    ensures Canonical(Print(n)) && (n > 0 ==> Print(n)[0] != '0')
  {
    if n >= 10 {
      PrintIsCanonical(n / 10);
    }
  }

  lemma {:induction false} CanonicalIsPositive(s: string)
    requires IsDigits(s) && s != "" && s[0] != '0'
    ensures Read(s) > 0
  {
    if |s| > 1 {
      CanonicalIsPositive(s[..|s| - 1]);
    }
  }

  lemma {:induction false} PrintReadCanonical(s: string)
    requires IsDigits(s) && Canonical(s)
    ensures Print(Read(s)) == s
  {
    var front, d := s[..|s| - 1], (s[|s| - 1] - '0') as nat;
    assert s == front + [s[|s| - 1]];
    if |s| > 1 {
      CanonicalIsPositive(front);
      PrintReadCanonical(front);
      assert Read(s) / 10 == Read(front) && Read(s) % 10 == d;
    }
  }

  /** Reading and printing gives a numeral back exactly when it is canonical. */
  lemma PrintReadIff(s: string)
    requires IsDigits(s)
    ensures Print(Read(s)) == s <==> Canonical(s)
  {
    if Canonical(s) {
      PrintReadCanonical(s);
    }
    PrintIsCanonical(Read(s));
  }

  lemma PrintIsInjective(m: nat, n: nat)
    requires Print(m) == Print(n)
    ensures m == n
  {
    ReadPrint(m);
    ReadPrint(n);
  }

  /** What is printed: the ten digits, and for greater numbers the digits of a tenth and the last one. */
  lemma PrintIs(n: nat)
    ensures Print(0) == "0" && Print(1) == "1" && Print(2) == "2" && Print(3) == "3" && Print(4) == "4"
    ensures Print(5) == "5" && Print(6) == "6" && Print(7) == "7" && Print(8) == "8" && Print(9) == "9"
    ensures n >= 10 ==> Print(n) == Print(n / 10) + Print(n % 10)
  {
  }
}
