/** Decimal numerals: the text of a number determines it. */
module Decimal {
  function Digit(d: nat): char
    requires d < 10
  {
    ('0' as int + d) as char
  }

  predicate IsDigit(c: char) { '0' <= c <= '9' }

  predicate AllDigits(s: string) { forall i :: 0 <= i < |s| ==> IsDigit(s[i]) }

  function DigitValue(c: char): nat
    requires IsDigit(c)
  {
    c as int - '0' as int
  }

  function Show(n: nat): string {
    if n < 10 then [Digit(n)] else Show(n / 10) + [Digit(n % 10)]
  }

  function Number(s: string): nat
    requires AllDigits(s)
  {
    if s == [] then 0 else Number(s[..|s| - 1]) * 10 + DigitValue(s[|s| - 1])
  }

  /** Reading a shown number gives it back; a numeral is never empty and starts with 0 only if it is "0". */
  lemma {:induction false} ReadShown(n: nat)
    ensures AllDigits(Show(n)) && Number(Show(n)) == n
    ensures Show(n) != [] && (Show(n)[0] == '0' <==> n == 0)
  {
    if n >= 10 {
      ReadShown(n / 10);
      var s := Show(n);
      assert s[..|s| - 1] == Show(n / 10);
      assert s[0] == Show(n / 10)[0];
    } else {
      assert Show(n)[..0] == [];
    }
  }

  lemma {:induction false} ShowInjective(m: nat, n: nat)
    requires Show(m) == Show(n)
    ensures m == n
  {
    ReadShown(m);
    ReadShown(n);
  }

  function Zeros(k: nat): string { seq(k, _ => '0') }

  /** "%03d". */
  function Pad3(n: nat): string {
    if |Show(n)| >= 3 then Show(n) else Zeros(3 - |Show(n)|) + Show(n)
  }

  lemma {:induction false} LeadingZeros(k: nat, s: string)
    requires AllDigits(s)
    ensures AllDigits(Zeros(k) + s) && Number(Zeros(k) + s) == Number(s)
    decreases |s|, k
  {
    if s != [] {
      var t := Zeros(k) + s;
      assert t[..|t| - 1] == Zeros(k) + s[..|s| - 1];
      LeadingZeros(k, s[..|s| - 1]);
    } else if k > 0 {
      assert Zeros(k) + s == Zeros(k);
      assert Zeros(k)[..k - 1] == Zeros(k - 1) + [];
      LeadingZeros(k - 1, []);
    }
  }

  /** Padding keeps the number. */
  lemma {:induction false} ReadPadded(n: nat)
    ensures AllDigits(Pad3(n)) && Number(Pad3(n)) == n
  {
    ReadShown(n);
    if |Show(n)| < 3 { LeadingZeros(3 - |Show(n)|, Show(n)); }
  }

  lemma {:induction false} Pad3Injective(m: nat, n: nat)
    requires Pad3(m) == Pad3(n)
    ensures m == n
  {
    ReadPadded(m);
    ReadPadded(n);
  }
}
