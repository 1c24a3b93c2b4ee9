/**
 Decimal numbers as character codes, as `toString` writes them and a reader takes them.
 */
module Decimals {

  type digit = d: int | 0x30 <= d <= 0x39 witness 0x30

  predicate IsDigit(c: int) {
    0x30 <= c <= 0x39
  }

  function Decimal(n: nat): (s: seq<digit>)
    ensures |s| > 0
    ensures n > 0 ==> s[0] != 0x30
    ensures n < 10 <==> |s| == 1
  {
    if n < 10 then [0x30 + n] else Decimal(n / 10) + [0x30 + n % 10]
  }

  /** All the digits at the front of `s`, after `acc` has been read, and what follows them. */
  function ReadDigits(s: seq<int>, acc: nat): (r: (nat, seq<int>))
    ensures |r.1| <= |s| && r.1 == s[|s| - |r.1|..]
  {
    if s == [] || !IsDigit(s[0]) then (acc, s) else ReadDigits(s[1..], 10 * acc + s[0] - 0x30)
  }

  lemma ReadOne(d: digit, rest: seq<int>, acc: nat)
    ensures ReadDigits([d] + rest, acc) == ReadDigits(rest, 10 * acc + d - 0x30)
  {
    assert ([d] + rest)[1..] == rest;
  }

  /** Reading digits written for `n` leaves `n` read. */
  lemma {:induction false} ReadDecimal(n: nat, rest: seq<int>)
    ensures ReadDigits(Decimal(n) + rest, 0) == ReadDigits(rest, n)
    decreases n
  {
    hide ReadDigits;
    if n < 10 {
      ReadOne(0x30 + n, rest, 0);
    } else {
      var last: seq<int> := [0x30 + n % 10];
      assert Decimal(n) + rest == Decimal(n / 10) + (last + rest);
      ReadDecimal(n / 10, last + rest);
      ReadOne(0x30 + n % 10, rest, n / 10);
    }
  }

  function Pow10(k: nat): (p: nat)
    ensures p > 0
  {
    if k == 0 then 1 else 10 * Pow10(k - 1)
  }

  /** A number has at most `k` digits exactly when it is below ten to the `k`. */
  lemma {:induction false} DecimalLength(n: nat, k: nat)
    requires k > 0
    ensures |Decimal(n)| <= k <==> n < Pow10(k)
    decreases k
  {
    if n >= 10 {
      if k == 1 {
        assert Pow10(1) == 10 * Pow10(0);
      } else {
        DecimalLength(n / 10, k - 1);
      }
    } else {
      assert Pow10(k) == 10 * Pow10(k - 1);
    }
  }
}
