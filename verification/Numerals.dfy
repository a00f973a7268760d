/** Reading decimal digits back. */
module Numerals {
  import opened Decimals
  import opened Instants

  /** The number that a text of digits denotes. */
  function Number(s: string): nat
    requires forall i :: 0 <= i < |s| ==> IsDigit(s[i])
  {
    if s == "" then 0
    else
      assert IsDigit(s[|s| - 1]);
      10 * Number(s[..|s| - 1]) + (s[|s| - 1] as int - '0' as int)
  }

  /** A decimal denotes its number and does not begin with an idle zero. */
  lemma {:induction false} DecimalDenotes(n: nat)
    ensures Number(Decimal(n)) == n && (n > 0 ==> Decimal(n)[0] != '0')
  {
    var s := Decimal(n);
    if n >= 10 {
      DecimalDenotes(n / 10);
      assert s[..|s| - 1] == Decimal(n / 10) && s[0] == Decimal(n / 10)[0];
    } else {
      assert s[..0] == "";
    }
  }

  lemma Divided(n: nat, w: nat)
    requires n < 10 * w
    ensures n / 10 < w
  {
  }

  /** Padded digits denote the number if it has that many. */
  lemma {:induction false} PadDenotes(n: nat, w: nat)
    requires n < Pow10(w)
    ensures Number(Pad(n, w)) == n
  {
    if w > 0 {
      Divided(n, Pow10(w - 1));
      PadDenotes(n / 10, w - 1);
      assert Pad(n, w)[..w - 1] == Pad(n / 10, w - 1);
    }
  }
}
