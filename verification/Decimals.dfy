/** Decimal digit strings and the numbers they denote. */
module Decimals {

  predicate IsDigit(c: char) {
    '0' <= c <= '9'
  }

  function DigitChar(d: nat): (c: char)
    requires d < 10
    ensures IsDigit(c)
  {
    ('0' as int + d) as char
  }

  function DigitValue(c: char): nat
    requires IsDigit(c)
  {
    c as int - '0' as int
  }

  predicate AllDigits(ds: string) {
    forall i :: 0 <= i < |ds| ==> IsDigit(ds[i])
  }

  function NatOf(ds: string): nat
    requires AllDigits(ds)
  {
    if ds == [] then 0 else 10 * NatOf(ds[..|ds| - 1]) + DigitValue(ds[|ds| - 1])
  }

  function Decimal(n: nat): (ds: string)
    ensures ds != [] && AllDigits(ds)
  {
    if n < 10 then [DigitChar(n)] else Decimal(n / 10) + [DigitChar(n % 10)]
  }

  lemma {:induction false} NatOfDecimal(n: nat)
    ensures NatOf(Decimal(n)) == n
  {
    if n >= 10 {
      NatOfDecimal(n / 10);
      assert Decimal(n)[..|Decimal(n)| - 1] == Decimal(n / 10);
    } else {
      assert Decimal(n)[..0] == [];
    }
  }

  function Pow10(k: nat): nat {
    if k == 0 then 1 else 10 * Pow10(k - 1)
  }

  lemma {:induction false} DecimalLength(n: nat, k: nat)
    requires 1 <= k && n < Pow10(k)
    ensures |Decimal(n)| <= k
  {
    if n >= 10 {
      DecimalLength(n / 10, k - 1);
    }
  }

  /** A larger prefix never denotes a smaller number. */
  lemma {:induction false} NatOfPrefix(ds: string, k: nat)
    requires AllDigits(ds) && k <= |ds|
    ensures NatOf(ds[..k]) <= NatOf(ds)
    ensures k + 1 <= |ds| ==> 10 * NatOf(ds[..k]) <= NatOf(ds)
    decreases |ds|
  {
    if k == |ds| {
      assert ds[..k] == ds;
    } else {
      var init := ds[..|ds| - 1];
      NatOfPrefix(init, k);
      assert init[..k] == ds[..k];
    }
  }
}
