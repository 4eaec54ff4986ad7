/** Decimal numerals as bytes: how counts, UIDs and key ids are written and read. */
module Decimal {
  import opened Basics

  function Digit(d: nat): byte
    requires d < 10
  {
    (48 + d) as byte
  }

  predicate IsDigit(b: byte) {
    48 <= b < 58
  }

  /** `format!("{n}")`. */
  function Dec(n: nat): (b: Bytes)
    ensures |b| > 0 && forall k :: 0 <= k < |b| ==> IsDigit(b[k])
  {
    if n < 10 then [Digit(n)] else Dec(n / 10) + [Digit(n % 10)]
  }

  /** The value of a non-empty run of digits, `None` for anything else. */
  function DigitsValue(b: Bytes): Option<nat> {
    if b == [] || !IsDigit(b[|b| - 1]) then None
    else
      var d := b[|b| - 1] as int - 48;
      if |b| == 1 then Some(d)
      else match DigitsValue(b[..|b| - 1])
        case None => None
        case Some(v) => Some(10 * v + d)
  }

  /** `str::parse::<uN>`: an optional plus sign, then digits whose value is below `bound`. */
  function ParseBelow(b: Bytes, bound: nat): Option<nat> {
    var digits := if |b| > 1 && b[0] == 43 then b[1..] else b;
    match DigitsValue(digits)
    case Some(v) => if v < bound then Some(v) else None
    case None => None
  }

  lemma {:induction false} DecRoundTrip(n: nat)
    ensures DigitsValue(Dec(n)) == Some(n)
  {
    if n >= 10 {
      DecRoundTrip(n / 10);
      var b := Dec(n);
      assert b[..|b| - 1] == Dec(n / 10);
      assert b[|b| - 1] == Digit(n % 10);
    }
  }

  /** Exactly the non-empty runs of digits have a value. */
  lemma {:induction false} DigitsIff(b: Bytes)
    ensures DigitsValue(b).Some? <==> b != [] && forall k :: 0 <= k < |b| ==> IsDigit(b[k])
  {
    if |b| <= 1 {
    } else {
      var front := b[..|b| - 1];
      DigitsIff(front);
      assert forall k :: 0 <= k < |front| ==> front[k] == b[k];
    }
  }

  /** A run of digits with this value, perhaps behind one plus sign. */
  ghost predicate Numeral(b: Bytes, v: nat) {
    DigitsValue(b) == Some(v) || (b != [] && b[0] == '+' as byte && DigitsValue(b[1..]) == Some(v))
  }

  /** What parses is exactly the numerals below the bound, and they parse to
      their value. */
  lemma ParseBelowIff(b: Bytes, bound: nat, v: nat)
    ensures ParseBelow(b, bound) == Some(v) <==> Numeral(b, v) && v < bound
  {
    DigitsIff(b);
    if b != [] { DigitsIff(b[1..]); }
  }

  lemma ParseDec(n: nat, bound: nat)
    requires n < bound
    ensures ParseBelow(Dec(n), bound) == Some(n)
  {
    DecRoundTrip(n);
    assert IsDigit(Dec(n)[0]);
  }

  function Pow10(k: nat): (p: nat)
    ensures p > 0
  {
    if k == 0 then 1 else 10 * Pow10(k - 1)
  }

  lemma {:induction false} DecLength(n: nat, k: nat)
    requires 0 < k && n < Pow10(k)
    ensures |Dec(n)| <= k
  {
    if n >= 10 {
      DecLength(n / 10, k - 1);
    }
  }

  const USIZE_LIMIT: nat := 0x1_0000_0000_0000_0000

  /** A `usize` prints in at most twenty digits. */
  lemma UsizeDigits(n: nat)
    requires n < USIZE_LIMIT
    ensures |Dec(n)| <= 20
  {
    Pow10Ten();
    assert Pow10(20) == 10 * (10 * (10 * (10 * (10 * (10 * (10 * (10 * (10 * (10 * Pow10(10))))))))));
    DecLength(n, 20);
  }

  lemma Pow10Ten()
    ensures Pow10(10) == 10_000_000_000
  {
  }
}
