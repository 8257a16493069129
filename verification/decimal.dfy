/** Numbers as decimal text. */
module Decimals {
  predicate IsDigit(c: char) { '0' <= c <= '9' }

  predicate Digits(s: string) { s != "" && forall k :: 0 <= k < |s| ==> IsDigit(s[k]) }

  function DigitValue(c: char): nat
    requires IsDigit(c)
  {
    c as int - '0' as int
  }

  function Number(s: string): nat
    requires forall k :: 0 <= k < |s| ==> IsDigit(s[k])
  {
    if s == "" then 0 else Number(s[..|s| - 1]) * 10 + DigitValue(s[|s| - 1])
  }

  /** Leading zeros go, except a zero that stands alone. */
  function StripZeros(s: string): (r: string)
    requires Digits(s)
    ensures Digits(r)
  {
    if |s| > 1 && s[0] == '0' then StripZeros(s[1..]) else s
  }

  function Decimal(n: nat): (r: string)
    ensures Digits(r)
  {
    var last := [(n % 10 + '0' as int) as char];
    if n < 10 then last else Decimal(n / 10) + last
  }

  /** A printed index has no leading zero to strip and reads as itself. */
  lemma {:induction false} DecimalRoundTrip(n: nat)
    ensures Number(Decimal(n)) == n
    ensures Decimal(n)[0] == '0' ==> n == 0
    ensures StripZeros(Decimal(n)) == Decimal(n)
    decreases n
  {
    var last := [(n % 10 + '0' as int) as char];
    if n < 10 {
      assert last[..0] == "";
    } else {
      DecimalRoundTrip(n / 10);
      var d := Decimal(n);
      assert d[..|d| - 1] == Decimal(n / 10) && d[|d| - 1] == last[0];
    }
  }
}
